# Weather backend numerics and lookup helpers in Dafny

This project models the self-contained logic of a weather-visualisation backend:

- **Upper-air sounding parsing.** It finds the nearest upper-air station in a fixed table of 30 stations. It reads the text listing of a University of Wyoming sounding into pressure, temperature and dewpoint columns (`uwyo_sounding.py`).
- **The in-memory TTL cache** that sits in front of the NWS API (`cache.py`).
- **The glossary.** It groups the glossary by category and looks up a term while ignoring case and surrounding blanks (`glossary_data.py`).
- **The two finite-difference solvers.**
  - 1-D upwind advection on a periodic grid (`advection_1d.py`).
  - 2-D upwind advection with a five-point diffusion stencil, with its stable time step (`advection_2d.py`).
- **Model soundings.** This covers:
  - the RAP/HRRR run time;
  - the nearest grid point in a latitude/longitude field;
  - matching dewpoints to the temperature levels;
  - the post-processing that sorts levels by descending pressure, converts to Celsius, drops invalid levels and builds the profile records (`model_sounding.py`).

## Modules

- `wrappers.dfy` (`Wrappers`) holds the support types:
  - `Option`;
  - `Result`, which carries a Python exception kind (`ZeroDivisionError`, `IndexError`, `ValueError`);
  - `Num`, a float that is either finite or not (NaN or ±inf).
- `text.dfy` (`PyText`) holds the Python string methods the source relies on: `splitlines`, `strip`, `split()`, `lower`, `startswith` and `in`. Each is given with its defining property. `splitlines` and `split()` also come with a round trip: `SplitLinesTerminated` splits `\n`-terminated lines back into the lines, and `SplitJoin` splits space-joined words back into the words.
- `uwyo_sounding.dfy` (`UwyoSounding`) models the station search and the Wyoming text parser.
- `cache.dfy` (`NwsCache`) models `TTLCache`. It is a class whose `store` map is updated in place. The clock reading is a parameter.
- `glossary.dfy` (`Glossary`) holds the 30-entry table, the grouping loop and the term lookup.
- `periodic.dfy` (`Periodic`) holds helpers shared by both solvers:
  - `np.linspace`;
  - sums;
  - the periodic shift `np.roll`;
  - the series of snapshots returned every `output_interval` steps.
- `advection1d.dfy` (`Advection1D`) and `advection2d.dfy` (`Advection2D`) model the two solvers.
  - Each solver is a specification function (`Solution`) plus an imperative version (`Solve`) over arrays that is proved equal to it.
  - The properties proved are:
    - conservation of the total;
    - exact transport when the Courant number is ±1;
    - the shape of the returned series;
    - when each Python exception is raised.
- `stability.dfy` (`Stability`) models the time-step rule of the 2-D solver. It proves that the rule satisfies the advective and diffusive limits.
- `model_sounding.dfy` (`ModelSounding`) covers the run time, the nearest grid point, dewpoint alignment and post-processing.

Consequences of the code that the model keeps:

- **Grid spacing.** The 1-D spacing is `1/(nx-1)` on `np.linspace(0, 1, nx)`, so `nx == 1` divides by zero. This is modelled as `Failure(ZeroDivisionError)`.
- **Time step of the 1-D solver.** The solver fixes `dt = dx/|c|` (`dx` when `c == 0`), so in exact arithmetic (see Left out: floats as reals) the Courant number is always `+1`, `-1` or `0` (`Advection1D.CourantNumber`). Every step is therefore an exact periodic shift, and the upwind scheme adds no numerical diffusion.
- **Diffusion term.** The 2-D solver divides the five-point Laplacian by `dx*dy`, not by `dx²` and `dy²`, and bounds `dt` by `0.25·min(dx², dy²)/D`. The model keeps `dx*dy` literally and proves `4·D·dt ≤ dx·dy`.
- **Profile pressures.** Post-processing only sorts the pressures, so equal pressures may remain. `ModelSounding.ProfileLevels` proves a non-increasing order.

## Model

| member | source | states |
|---|---|---|
| UwyoSounding.NearestIn | backend/app/physics/uwyo_sounding.py:50-57 | the result is the first station at least distance, provided that distance is below the 1e9 start bound; it is the fallback when no station beats the bound; it is always a station of the list or the fallback |
| UwyoSounding.NearestStation | backend/app/physics/uwyo_sounding.py:48-57 | over the 30-station table: the first nearest station when one is within the bound, Miami otherwise, and always an entry of the table |
| UwyoSounding.RowOf | backend/app/physics/uwyo_sounding.py:84-101 | any data row accepted from a line has a pressure within [50, 1050] hPa |
| UwyoSounding.RowOfSome | backend/app/physics/uwyo_sounding.py:84-101 | a line yields a row exactly when it is not blank, does not start with "Station" or "(", has at least four fields, its temperature and dewpoint are not "***", fields 0, 2 and 3 parse and the pressure is in range; the row holds those three values |
| UwyoSounding.Rows | backend/app/physics/uwyo_sounding.py:78-101 | the scan yields at most one row per line, every row is what the row reader returns for one of the lines, and before the first header line (with no header at all) it yields nothing |
| UwyoSounding.ParseWyomingText | backend/app/physics/uwyo_sounding.py:74-102 | the three returned lists have equal length and are the pressure, temperature and dewpoint columns of the rows read after the first header line |
| UwyoSounding.ScanStep | backend/app/physics/uwyo_sounding.py:78-83 | one line of the scan: a header switches to data mode; a line outside data mode or without a row adds nothing; a data row is appended |
| UwyoSounding.ColumnsAppend | backend/app/physics/uwyo_sounding.py:97-99 | appending a row appends its values to each of the three columns |
| UwyoSounding.RowsUnfold | backend/app/physics/uwyo_sounding.py:78-101 | the rows of a text are those of its first line followed by those of the rest, in the mode that line leaves |
| UwyoSounding.RowsPressureInRange | backend/app/physics/uwyo_sounding.py:93-94 | for the non-NaN values `parse` stands for, every pressure the parser returns lies in [50, 1050] hPa |
| UwyoSounding.RowsInRange | backend/app/physics/uwyo_sounding.py:93-94 | a row reader that only accepts in-range pressures gives a scan with only in-range pressures |
| UwyoSounding.NoHeaderNoRows | backend/app/physics/uwyo_sounding.py:77-83 | a text without a header line yields no rows |
| UwyoSounding.RowsStartAfterHeader | backend/app/physics/uwyo_sounding.py:77-83 | the rows are those read from the lines after the first header |
| UwyoSounding.RowsAppend | backend/app/physics/uwyo_sounding.py:80-101 | once in data mode the scan never leaves it: the rows of two texts joined are the rows of each in order |
| UwyoSounding.RowsCons | backend/app/physics/uwyo_sounding.py:80-101 | in data mode the rows are the first line's row, if any, followed by the rows of the rest |
| UwyoSounding.SkippedLineYieldsNothing | backend/app/physics/uwyo_sounding.py:84-101 | removing a non-header line that yields no row does not change the result |
| UwyoSounding.HeightIgnored | backend/app/physics/uwyo_sounding.py:89-92 | the height column (field 1) has no influence on the row read |
| PyText.SplitLines | backend/app/physics/uwyo_sounding.py:78 | no returned line contains a line break |
| PyText.SplitLinesTerminated | backend/app/physics/uwyo_sounding.py:78 | splitting lines that were each terminated by "\n" gives the lines back |
| PyText.LStrip | backend/app/glossary_data.py:49 | the result is a suffix of the input, the removed prefix is all whitespace, and the result does not start with whitespace |
| PyText.RStrip | backend/app/glossary_data.py:49 | the result is a prefix of the input, the removed suffix is all whitespace, and the result does not end with whitespace |
| PyText.StripEmpty | backend/app/physics/uwyo_sounding.py:84 | a stripped line is empty exactly when the line is all whitespace |
| PyText.StripSurrounding | backend/app/glossary_data.py:49 | strip ignores any whitespace added around a string |
| PyText.Split | backend/app/physics/uwyo_sounding.py:86 | every field is non-empty and free of whitespace |
| PyText.SplitJoin | backend/app/physics/uwyo_sounding.py:86 | splitting fields joined by single spaces gives the fields back |
| PyText.LowerChar | backend/app/glossary_data.py:49-51 | lower-casing keeps whitespace as whitespace and maps A-Z to a-z |
| PyText.Lower | backend/app/glossary_data.py:49-51 | lower-casing keeps the length |
| PyText.LowerStrip | backend/app/glossary_data.py:49 | lower-casing and stripping commute |
| PyText.ContainsAt | backend/app/physics/uwyo_sounding.py:79 | a substring found at any position makes the `in` test true |
| PyText.ContainsOccurs | backend/app/physics/uwyo_sounding.py:79 | conversely, a true `in` test means the substring occurs at some position |
| NwsCache.EffectiveTtl | backend/app/nws/cache.py:12 | a TTL of None or 0 falls back to the 300-second default; any other value is kept; the TTL is never 0 |
| NwsCache.Lookup | backend/app/nws/cache.py:15-23 | a value comes back exactly when the key is stored and `now` is not past its expiry, and it is the stored value; the key stays in the store exactly when a value comes back, and every key left keeps its stored entry |
| NwsCache.Put | backend/app/nws/cache.py:25-26 | the key maps to the value with expiry `now + ttl`, and the stored keys are the old ones plus this key |
| NwsCache.TTLCache.constructor | backend/app/nws/cache.py:11-13 | a new cache has the effective TTL and an empty store |
| NwsCache.TTLCache.Get | backend/app/nws/cache.py:15-23 | a missing key gives None and leaves the store alone; an expired key gives None and is deleted; a live key gives its value and leaves the store alone |
| NwsCache.TTLCache.Set | backend/app/nws/cache.py:25-26 | the key maps to the value with expiry now + TTL; every other key keeps its entry |
| NwsCache.GetAfterSet | backend/app/nws/cache.py:15-26 | a get no later than the expiry returns the value just set |
| NwsCache.GetAfterExpiry | backend/app/nws/cache.py:15-26 | a get after the expiry returns None and removes the key |
| NwsCache.OtherKeysUntouched | backend/app/nws/cache.py:15-26 | get and set on one key neither add, remove nor change any other key |
| NwsCache.SetOverwrites | backend/app/nws/cache.py:25-26 | a second set of the same key replaces the first entirely |
| Glossary.Categories | backend/app/glossary_data.py:40-43 | the categories in first-appearance order are distinct and are exactly the categories that occur |
| Glossary.GroupByCategory | backend/app/glossary_data.py:38-45 | the keys are the categories in insertion order; each maps to its entries in table order, and no group is empty |
| Glossary.InCategoryAbsent | backend/app/glossary_data.py:40-44 | a category that does not occur has no entries |
| Glossary.InCategoryOnly | backend/app/glossary_data.py:40-44 | a group holds only table entries of its category |
| Glossary.InCategoryNonEmpty | backend/app/glossary_data.py:40-44 | a group is non-empty exactly when its category occurs |
| Glossary.InCategoryHas | backend/app/glossary_data.py:40-44 | every entry is in the group of its own category |
| Glossary.InCategoryAppend | backend/app/glossary_data.py:40-44 | grouping keeps the table order |
| Glossary.InCategoryCount | backend/app/glossary_data.py:40-44 | each entry appears in its category's group as often as in the table, and in no other group |
| Glossary.GroupSizesSum | backend/app/glossary_data.py:38-45 | the group sizes add up to the size of the table, so the groups partition it |
| Glossary.FirstMatch | backend/app/glossary_data.py:50-53 | the result is the first entry whose lower-cased term equals the key; it is None exactly when no term matches |
| Glossary.GetTerm | backend/app/glossary_data.py:48-53 | a found entry is in the table and its lower-cased term equals the stripped, lower-cased query; nothing is found exactly when no term matches that query |
| Glossary.GetTermIgnoresCase | backend/app/glossary_data.py:48-53 | two queries that lower-case alike find the same entry |
| Glossary.GetTermIgnoresSurroundingBlanks | backend/app/glossary_data.py:48-53 | whitespace around the query does not change the result |
| Glossary.FirstOfDistinct | backend/app/glossary_data.py:50-52 | in a table whose lower-cased terms are distinct, the first match is the only match |
| Glossary.GetOwnTerm | backend/app/glossary_data.py:48-53 | in a table of distinct, already-stripped terms, looking up an entry's own term finds that entry |
| Periodic.Linspace | backend/app/physics/advection_1d.py:25 | `np.linspace(0, 1, nx)` has `nx` points |
| Periodic.Spacing | backend/app/physics/advection_1d.py:22 | the spacing `1/(nx-1)` is non-zero for any `nx` other than 1 |
| Periodic.SumAppend | backend/app/physics/advection_1d.py:31-41 | the total of two concatenated fields is the sum of their totals |
| Periodic.Shift | backend/app/physics/advection_1d.py:34-38 | a periodic shift keeps the length |
| Periodic.ShiftZero | backend/app/physics/advection_1d.py:34-38 | a shift by 0 leaves the field unchanged |
| Periodic.ShiftShift | backend/app/physics/advection_1d.py:31-39 | two shifts compose into one shift by the sum |
| Periodic.ShiftOne | backend/app/physics/advection_1d.py:34-38 | a shift by ±1 takes each cell's periodic left (right) neighbour, wrapping at the ends |
| Periodic.NeighbourSum | backend/app/physics/advection_1d.py:34-38 | the periodic neighbours of all cells have the same total as the cells |
| Periodic.Series | backend/app/physics/advection_1d.py:30-41 | the series starts with the step-0 snapshot |
| Periodic.SeriesLength | backend/app/physics/advection_1d.py:30-41 | the series holds `1 + num_steps // |output_interval|` snapshots |
| Periodic.SeriesEntries | backend/app/physics/advection_1d.py:30-41 | every snapshot is the frame of its own step, and that step lies within 0..num_steps and is a multiple of the interval |
| Periodic.SeriesIncreasing | backend/app/physics/advection_1d.py:30-41 | snapshot steps are strictly increasing |
| Periodic.SeriesComplete | backend/app/physics/advection_1d.py:40-41 | every positive multiple of the interval up to num_steps has its snapshot |
| Advection1D.InitialField | backend/app/physics/advection_1d.py:25-28 | the initial field has one value per grid point |
| Advection1D.Upwind | backend/app/physics/advection_1d.py:32-39 | a step keeps the number of points |
| Advection1D.Evolve | backend/app/physics/advection_1d.py:31-39 | any number of steps keeps the number of points |
| Advection1D.Run | backend/app/physics/advection_1d.py:30-41 | the time loop raises exactly when a step is taken on an empty field or with a zero output interval, `IndexError` exactly for the empty field; a completed loop records the initial field at step 0 first |
| Advection1D.Step | backend/app/physics/advection_1d.py:32-39 | the copied-then-updated array is one upwind step, forward for c >= 0 and backward otherwise |
| Advection1D.SweepForward | backend/app/physics/advection_1d.py:33-35 | the sweep writes the c >= 0 upwind update, with the periodic first cell |
| Advection1D.SweepBackward | backend/app/physics/advection_1d.py:36-38 | the sweep writes the c < 0 upwind update, with the periodic last cell |
| Advection1D.Sample | backend/app/physics/advection_1d.py:25-28 | the sampled array is the initial field on the grid |
| Advection1D.TimeLoop | backend/app/physics/advection_1d.py:30-41 | the loop returns exactly the specified snapshot series, or the error the Python loop raises |
| Advection1D.Solve | backend/app/physics/advection_1d.py:10-50 | the imperative solver returns exactly the specified output or error |
| Advection1D.Solution | backend/app/physics/advection_1d.py:10-50 | a successful run has `nx >= 0` grid points, spacing `1/(nx-1)`, the given wind and step count, and a series that starts with the sampled initial field at step 0 |
| Advection1D.GridSpacing | backend/app/physics/advection_1d.py:22-25 | the grid runs from 0 to 1 with consecutive points `dx` apart |
| Advection1D.QuotientStep | backend/app/physics/advection_1d.py:22-25 | consecutive points `a/d` and `(a+1)/d` are `1/d` apart |
| Advection1D.CourantNumber | backend/app/physics/advection_1d.py:22-24 | with `dt = dx/|c|` (or `dx` when c = 0) the Courant number `c·dt/dx` is +1, -1 or 0 |
| Advection1D.UpwindExact | backend/app/physics/advection_1d.py:33-38 | at Courant number +1 (-1) a step is a periodic shift right (left); at 0 it changes nothing |
| Advection1D.UpwindSum | backend/app/physics/advection_1d.py:32-39 | a step conserves the total of the field, for any Courant number |
| Advection1D.UpwindSumForward | backend/app/physics/advection_1d.py:33-35 | the c >= 0 step conserves the total |
| Advection1D.UpwindSumBackward | backend/app/physics/advection_1d.py:36-38 | the c < 0 step conserves the total |
| Advection1D.UpwindUniform | backend/app/physics/advection_1d.py:32-39 | a uniform field is a steady state |
| Advection1D.EvolveSum | backend/app/physics/advection_1d.py:31-41 | every number of steps conserves the total |
| Advection1D.UpwindMoves | backend/app/physics/advection_1d.py:32-39 | at the solver's own Courant number a step shifts the field by `d` cells |
| Advection1D.EvolveTravels | backend/app/physics/advection_1d.py:31-39 | after `n` steps the field is the initial field shifted `d·n` cells |
| Advection1D.FramesTravel | backend/app/physics/advection_1d.py:31-41 | every recorded snapshot is the initial field shifted by its step count and has the initial total |
| Advection1D.SolutionErrors | backend/app/physics/advection_1d.py:22-41 | the solver fails exactly when `nx` is 1, negative, or 0 with steps to run, or the interval is 0 with steps to run; it gives ZeroDivisionError for `nx == 1` or a zero interval, ValueError for negative `nx`, and IndexError for an empty grid |
| Advection1D.SolutionCourant | backend/app/physics/advection_1d.py:22-24 | the solver's Courant number is the direction of `c` |
| Advection1D.SolutionShape | backend/app/physics/advection_1d.py:25-41 | a successful run returns the series of frames of the initial field, at the direction of `c` |
| Advection1D.SolutionSeries | backend/app/physics/advection_1d.py:25-49 | the output has `nx` grid points, `1 + num_steps // |interval|` snapshots starting with the initial field, each the initial field shifted by its step count with an unchanged total |
| Stability.AdvectiveLimitBound | backend/app/physics/advection_2d.py:27 | the advective limit `h / max(|c|, 1e-6)` is positive and keeps `|c|·dt` within one cell |
| Stability.DiffusiveLimitBound | backend/app/physics/advection_2d.py:28 | the diffusive limit is positive, and any time step within it gives `4·D·dt ≤ dx·dy` |
| Stability.QuarterBound | backend/app/physics/advection_2d.py:28 | a quarter of the smaller squared spacing over the floored diffusivity bounds `4·D·dt` by the cell area |
| Stability.CourantBound | backend/app/physics/advection_2d.py:40-51 | when `|c|·dt ≤ h` the Courant number `c·dt/h` lies in [-1, 1] |
| Stability.TimeStep | backend/app/physics/advection_2d.py:27-29 | the time step is at most each of the two advective limits, the diffusive limit and 0.002, and equals one of them |
| Stability.TimeStepPositive | backend/app/physics/advection_2d.py:24-29 | for positive spacings the time step lies in (0, 0.002] |
| Stability.AxisAdvection | backend/app/physics/advection_2d.py:27 | a time step within an axis's advective limit moves at most one cell along that axis |
| Stability.TimeStepDiffusion | backend/app/physics/advection_2d.py:28-29 | the chosen time step satisfies `4·D·dt ≤ dx·dy` for any non-negative diffusivity |
| Stability.WithinLimits | backend/app/physics/advection_2d.py:27-29 | any positive time step within all three limits is stable |
| Stability.TimeStepLimits | backend/app/physics/advection_2d.py:24-29 | the chosen time step is positive, at most 0.002, and stable on both axes and for diffusion |
| Advection2D.InitialField | backend/app/physics/advection_2d.py:31-34 | the initial field has `ny` rows of `nx` values |
| Advection2D.StepCoefficients | backend/app/physics/advection_2d.py:24-25 | the diffusion divisor `dx·dy` is non-zero |
| Advection2D.Cell | backend/app/physics/advection_2d.py:38-56 | with both Courant numbers zero, a cell keeps its value when there is no diffusion or when it lies on the boundary, which diffusion does not reach |
| Advection2D.Step | backend/app/physics/advection_2d.py:37-57 | a step keeps the grid rectangular and its shape |
| Advection2D.Evolve | backend/app/physics/advection_2d.py:37-57 | any number of steps keeps the grid's shape |
| Advection2D.Run | backend/app/physics/advection_2d.py:36-59 | the time loop raises exactly when a step is taken on a grid with no rows or no columns or with a zero output interval, `IndexError` exactly for the empty grid; a completed loop records the flattened initial field at step 0 first |
| Advection2D.Cells | backend/app/physics/advection_2d.py:31-34 | the grid read from an array has its dimensions |
| Advection2D.Copy | backend/app/physics/advection_2d.py:38 | the copy is a fresh array with the same cells |
| Advection2D.StepGrid | backend/app/physics/advection_2d.py:38-57 | copying, then applying the x, y and diffusion updates to the array, gives the specified step |
| Advection2D.AdvectX | backend/app/physics/advection_2d.py:39-45 | every cell loses its upwind x-flux, with periodic columns |
| Advection2D.AdvectRow | backend/app/physics/advection_2d.py:40-45 | one row loses its x-flux; every other row is unchanged |
| Advection2D.AdvectY | backend/app/physics/advection_2d.py:46-51 | every cell loses its upwind y-flux, with periodic rows |
| Advection2D.AdvectColumn | backend/app/physics/advection_2d.py:46-51 | one column loses its y-flux; every other column is unchanged |
| Advection2D.Diffuse | backend/app/physics/advection_2d.py:52-56 | every interior cell gains `D·dt·Laplacian/(dx·dy)`; border cells are unchanged |
| Advection2D.DiffuseRow | backend/app/physics/advection_2d.py:52-56 | the interior cells of one row gain their diffusion term; every other row is unchanged |
| Advection2D.Sample | backend/app/physics/advection_2d.py:31-34 | the sampled array is the initial field on the mesh grid |
| Advection2D.TimeLoop | backend/app/physics/advection_2d.py:36-59 | the loop returns exactly the specified snapshot series, or the error the Python loop raises |
| Advection2D.Record | backend/app/physics/advection_2d.py:58-59 | appending the flattened field at a multiple of the interval extends the series by one step |
| Advection2D.Advance | backend/app/physics/advection_2d.py:37-57 | one more step advances the evolved field by one |
| Advection2D.Solve | backend/app/physics/advection_2d.py:10-69 | the imperative solver returns exactly the specified output or error |
| Advection2D.Solution | backend/app/physics/advection_2d.py:10-69 | a successful solve has non-negative dimensions, returns the given dimensions and step count, and its series starts with the flattened initial field at step 0 |
| Advection2D.TimeStepBounds | backend/app/physics/advection_2d.py:24-29 | on a grid of at least 2×2 points the time step is in (0, 0.002] and stable |
| Advection2D.FlattenLength | backend/app/physics/advection_2d.py:36 | the flattened grid holds `rows·width` values |
| Advection2D.RestRectangular | backend/app/physics/advection_2d.py:36 | removing the first row keeps a grid rectangular and keeps its width |
| Advection2D.FlattenAt | backend/app/physics/advection_2d.py:36 | the flattening is row-major: cell (j, i) is at `j·width + i` |
| Advection2D.RowSums | backend/app/physics/advection_2d.py:37-57 | there is one row total per row |
| Advection2D.SumFlatten | backend/app/physics/advection_2d.py:36 | the total of the flattened grid is the sum of the row totals |
| Advection2D.StepRowSums | backend/app/physics/advection_2d.py:40-51 | without diffusion, the row totals after a step are one 1-D upwind step of the row totals along y |
| Advection2D.StepRowSum | backend/app/physics/advection_2d.py:40-51 | without diffusion, the total of one row after a step is the 1-D upwind update of the row totals at that row |
| Advection2D.StepSum | backend/app/physics/advection_2d.py:40-51 | without diffusion a step conserves the total of the field |
| Advection2D.EvolveSum | backend/app/physics/advection_2d.py:37-57 | without diffusion every number of steps conserves the total |
| Advection2D.StepUniform | backend/app/physics/advection_2d.py:38-56 | a uniform field is a steady state, with or without diffusion |
| Advection2D.StepRows | backend/app/physics/advection_2d.py:40-51 | with `cy = 0` and no diffusion each row takes one 1-D upwind step |
| Advection2D.EvolveRows | backend/app/physics/advection_2d.py:37-57 | with `cy = 0` and no diffusion each row evolves as the 1-D solver |
| Advection2D.SolutionErrors | backend/app/physics/advection_2d.py:24-59 | the solver fails exactly when `nx` or `ny` is 1 or negative, or steps are to run on an empty grid or with a zero interval; the error is ZeroDivisionError, ValueError or IndexError respectively |
| Advection2D.RunSeries | backend/app/physics/advection_2d.py:36-59 | the series starts with the flattened initial field and holds `1 + num_steps // |interval|` snapshots; each is the flattened field after its step, has every cell, and without diffusion has the initial total |
| Advection2D.SolutionShape | backend/app/physics/advection_2d.py:24-69 | a successful solve returns the time loop's series for the sampled field at the spacings' stable time step |
| Advection2D.SolutionSeries | backend/app/physics/advection_2d.py:24-69 | the returned series: initial field first, one snapshot per interval of `nx·ny` values each, with the initial total kept when diffusion is 0 |
| ModelSounding.RunTime | backend/app/physics/model_sounding.py:14-19 | the run time has the same date, minutes, seconds and microseconds zeroed, and the latest hour that is a multiple of 3 and not after now |
| ModelSounding.RunTimeStable | backend/app/physics/model_sounding.py:15-18 | the run hour is one of 00, 03, …, 21, and a run time is its own run time |
| ModelSounding.NormalizeLon | backend/app/physics/model_sounding.py:24 | a negative longitude gains 360; any other longitude is kept |
| ModelSounding.NormalizeLonRange | backend/app/physics/model_sounding.py:23-24 | a longitude in [-360, 360] is brought into [0, 360] |
| ModelSounding.ArgMin | backend/app/physics/model_sounding.py:26 | the index of the first finite minimum, or 0 when no distance is finite |
| ModelSounding.ArgMinUnique | backend/app/physics/model_sounding.py:26 | the first-minimum property determines the index |
| ModelSounding.ArgMinNoneFinite | backend/app/physics/model_sounding.py:26 | when every distance is NaN or infinite the index is 0 |
| ModelSounding.Dist | backend/app/physics/model_sounding.py:25 | a squared distance is finite exactly when both coordinates are, and is then non-negative |
| ModelSounding.Unravel | backend/app/physics/model_sounding.py:27 | a flat index unravels to a row and a column in range that ravel back to it |
| ModelSounding.Ravel | backend/app/physics/model_sounding.py:27 | a row and a column ravel to a flat index in range that unravels back to them |
| ModelSounding.Distances | backend/app/physics/model_sounding.py:25 | there is one distance per grid point |
| ModelSounding.NearestPointIndex | backend/app/physics/model_sounding.py:22-28 | an empty grid raises ValueError; otherwise the returned (iy, ix) is in range and its flat index is the first minimum of the distances |
| ModelSounding.NearestPointFirst | backend/app/physics/model_sounding.py:22-28 | no grid point is strictly nearer than the one returned, and no point earlier in row-major order is as near |
| ModelSounding.Gaps | backend/app/physics/model_sounding.py:147 | the gaps are the absolute pressure differences, level by level |
| ModelSounding.LevelIndex | backend/app/physics/model_sounding.py:147 | the matched dewpoint level is an index into the dewpoint pressures when there are any |
| ModelSounding.DewpointFor | backend/app/physics/model_sounding.py:147-148 | a level's dewpoint is one of the dewpoint values or its own temperature: the temperature when there are no dewpoint values, a dewpoint value when there are at least as many values as dewpoint levels |
| ModelSounding.AlignedDewpoints | backend/app/physics/model_sounding.py:141-148 | matched levels take the dewpoint values as they are; otherwise there is one dewpoint per level, each a dewpoint value or the level's temperature |
| ModelSounding.AlignDewpoint | backend/app/physics/model_sounding.py:141-148 | the loop fills the array with the aligned dewpoints |
| ModelSounding.AlignedLevels | backend/app/physics/model_sounding.py:143-148 | when the levels differ, each level takes the dewpoint at the first nearest dewpoint pressure, or its own temperature when that index is past the dewpoint values; without dewpoint pressures it uses index 0 |
| ModelSounding.AlignSameLevels | backend/app/physics/model_sounding.py:141-148 | when the dewpoint levels are the temperature levels, the dewpoints are kept as given |
| ModelSounding.Levels | backend/app/physics/model_sounding.py:151-154 | the levels zip pressure, temperature and dewpoint index by index |
| ModelSounding.InsertCount | backend/app/physics/model_sounding.py:151-152 | inserting a level adds exactly that level |
| ModelSounding.InsertSorted | backend/app/physics/model_sounding.py:151-152 | inserting into a descending list keeps it descending |
| ModelSounding.SortDescending | backend/app/physics/model_sounding.py:150-152 | the sorted levels are in non-increasing pressure and are a permutation of the input |
| ModelSounding.ConsNonIncreasing | backend/app/physics/model_sounding.py:150-152 | a level no lower than every level of a descending list can head it |
| ModelSounding.Convert | backend/app/physics/model_sounding.py:153-154 | each level's temperature and dewpoint are shifted by -273.15, level by level |
| ModelSounding.ConvertCount | backend/app/physics/model_sounding.py:153-154 | a converted level occurs as often as its Kelvin original |
| ModelSounding.CelsiusInverse | backend/app/physics/model_sounding.py:153-154 | conversion to Celsius and back to Kelvin are inverse |
| ModelSounding.ConvertPermutation | backend/app/physics/model_sounding.py:151-154 | converting permutations gives permutations |
| ModelSounding.Valid | backend/app/physics/model_sounding.py:157 | the validity filter: pressure strictly between 50 and 1050 hPa and finite temperature and dewpoint; a definition, whose consequences `Keep` and `KeptLevels` state |
| ModelSounding.Keep | backend/app/physics/model_sounding.py:157 | every kept level comes from the input and is valid |
| ModelSounding.KeepCount | backend/app/physics/model_sounding.py:157-162 | a valid level is kept as often as it occurs, an invalid one never |
| ModelSounding.KeepPermutation | backend/app/physics/model_sounding.py:157-162 | filtering permutations gives permutations |
| ModelSounding.KeepNonIncreasing | backend/app/physics/model_sounding.py:157-162 | filtering keeps the descending order |
| ModelSounding.Kept | backend/app/physics/model_sounding.py:150-157 | the sorted, converted and filtered levels are no more than the input levels, and all are valid |
| ModelSounding.KeptLevels | backend/app/physics/model_sounding.py:150-162 | the kept levels are descending and are exactly the valid input levels, in Celsius, each as often as in the input |
| ModelSounding.KeptTraced | backend/app/physics/model_sounding.py:150-162 | each kept level is valid, and its record comes from one input level |
| ModelSounding.Records | backend/app/physics/model_sounding.py:178-181 | one record per kept level, in order |
| ModelSounding.RecordsTraced | backend/app/physics/model_sounding.py:178-181 | records of descending, valid, traced levels form a profile of the input |
| ModelSounding.KeptFromInput | backend/app/physics/model_sounding.py:150-162 | the kept levels are descending, valid, and each traced to an input level |
| ModelSounding.PostProcess | backend/app/physics/model_sounding.py:150-162 | fewer dewpoints than levels raises IndexError; fewer than 5 valid levels gives None; otherwise one record per kept level |
| ModelSounding.ProfileLevels | backend/app/physics/model_sounding.py:157-181 | a returned profile has at least 5 levels, pressures strictly within (50, 1050) and non-increasing, and each record is an input level with finite temperature and dewpoint in Celsius |
| ModelSounding.AlignedPostProcess | backend/app/physics/model_sounding.py:141-162 | after alignment, post-processing raises exactly when the dewpoint levels were taken as they are (same count and close pressures) and there are fewer dewpoint values than levels; the nearest-level mapping always gives one dewpoint per level |

## Left out

- Network and framework code is not part of this model: HTTP fetches, the FastAPI routes, Herbie and xarray data access, the MetPy CAPE/CIN computation, and the code that wires the cache to the clients. Each is I/O or foreign code.
- The clock is a parameter. `TTLCache` takes `now` for `time.monotonic()`, and `RunTime` takes the current UTC date and time.
- `RunTime` returns the date and time, not the `strftime("%Y-%m-%d %H")` text, because string formatting is presentation.
- Floats are modelled as exact reals: there is no rounding and no overflow.
  - NaN and infinity are modelled only where the source tests for them: the `isfinite` filters of `model_sounding.py`, through `Num`.
  - The 1e-6 and 1e-10 floors of the 2-D time step are modelled as real constants.
- The Gaussian initial conditions (`np.exp(-40 …)` and `np.exp(-80 …)`) are a parameter `init`, since the exponential has no exact real counterpart. The grid and the sampling are modelled.
- NumPy's vectorised slice updates are modelled as loops over arrays that read only the old field. The result is the same, but the order in which NumPy writes is not modelled.
- UwyoSounding.ParseWyomingText: Python's `float()` is a parameter `parse`, so the exact decimal syntax and the NaN or infinity values it can return are not modelled; in particular a `nan` pressure field fails both range comparisons in the source and so passes its out-of-range check, which the model, reading only reals, does not capture. The exception handler is modelled by `parse` returning None.
- UwyoSounding.NearestStation: compares squared distances with the bound 1e18 instead of `math.sqrt` against 1e9. Both are monotone, so the same station is chosen, but the rounding of the square root is not modelled.
- ModelSounding.AlignDewpoint: `np.allclose(pres, pres_dpt)` is a boolean parameter `close`, because the tolerance arithmetic is floating point.
- ModelSounding.SortDescending: `np.argsort(pres)[::-1]` is modelled as a descending sort that is a permutation. The exact order among equal pressures, which the reversal of a non-stable quicksort decides, is not modelled.
- ModelSounding.PostProcess: requires one temperature per pressure level (`|tK| == |pres|`), the shape the extraction code produces. Fewer dewpoints than levels is modelled as IndexError.
- ModelSounding.NearestPointIndex: requires the latitude and longitude grids to have the same shape, which the model files guarantee. The NumPy broadcasting error for mismatched shapes is not modelled.
- PyText.LowerChar: lower-cases ASCII letters and the Kelvin sign only. The rest of Unicode case mapping is not modelled; no glossary term uses other letters.
- Glossary.GetOwnTerm: is proved for any table whose terms are distinct after lower-casing and are already stripped. That the 30-entry table itself has these properties is not proved, because checking all pairs of the literal table exceeds the verifier's resource budget.
- The rest of `model_sounding.py` (`get_model_sounding`'s data access and CAPE/CIN) and `uwyo_sounding.py` (`fetch_wyoming_sounding`, `get_real_sounding`) is I/O.
