/** University of Wyoming soundings: parsing the TEXT:LIST page into pressure,
    temperature and dewpoint columns, and choosing the upper-air station
    nearest to a point. Fetching the page over HTTP is not part of this model. */
module UwyoSounding {
  import opened Wrappers
  import opened PyText

  // ---------------------------------------------------------------- stations

  datatype Station = Station(id: int, lat: real, lon: real)

  /** The WMO upper-air stations searched by `nearest_station`, in table order. */
  const UpperAirStations: seq<Station> := [
    Station(72215, 25.8, -80.3),     // Miami
    Station(72202, 24.55, -81.75),   // Key West
    Station(72210, 30.23, -81.88),   // Jacksonville
    Station(72214, 28.43, -80.57),   // Cape Canaveral
    Station(72220, 32.9, -80.03),    // Charleston
    Station(72305, 35.22, -80.95),   // Charlotte
    Station(72317, 35.87, -78.78),   // Raleigh
    Station(72403, 38.85, -77.03),   // Washington DC
    Station(72402, 39.18, -76.67),   // Baltimore
    Station(74486, 40.78, -73.97),   // New York
    Station(72649, 43.65, -70.3),    // Portland ME
    Station(72501, 35.39, -97.6),    // Oklahoma City
    Station(72327, 36.25, -86.57),   // Nashville
    Station(72235, 30.49, -86.53),   // Eglin
    Station(72240, 32.9, -97.04),    // Fort Worth
    Station(72250, 29.98, -95.37),   // Houston
    Station(72469, 39.75, -104.87),  // Denver
    Station(72363, 35.04, -106.62),  // Albuquerque
    Station(72572, 40.78, -111.97),  // Salt Lake City
    Station(72489, 39.05, -95.65),   // Topeka
    Station(72528, 41.32, -95.9),    // Omaha
    Station(72672, 42.95, -87.9),    // Milwaukee
    Station(72645, 41.78, -87.75),   // Chicago
    Station(72694, 47.46, -111.38),  // Great Falls
    Station(72747, 45.7, -121.52),   // Portland OR
    Station(72797, 47.95, -124.55),  // Quillayute WA
    Station(72274, 33.43, -112.02),  // Phoenix
    Station(72293, 32.73, -117.19),  // San Diego
    Station(72288, 33.94, -118.4),   // Los Angeles
    Station(72201, 26.08, -80.15)    // Fort Lauderdale
  ]

  /** Returned when no station is closer than the initial bound. */
  const Fallback: Station := Station(72215, 25.8, -80.3)

  /** The search starts from a distance of 1e9 degrees. The source compares
      `sqrt` distances; `sqrt` is monotone on non-negative numbers, so the
      model compares squared distances against (1e9)^2. */
  const InitialBestSq: real := 1_000_000_000_000_000_000.0

  function SqDist(s: Station, lat: real, lon: real): (d: real)
    ensures d >= 0.0
  {
    (lat - s.lat) * (lat - s.lat) + (lon - s.lon) * (lon - s.lon)
  }

  /** Index `k` is the first station of `stations` at the least distance, and
      that distance beats the initial bound. */
  ghost predicate IsFirstNearest(stations: seq<Station>, k: int, lat: real, lon: real) {
    && 0 <= k < |stations|
    && SqDist(stations[k], lat, lon) < InitialBestSq
    && (forall j :: 0 <= j < |stations| ==> SqDist(stations[k], lat, lon) <= SqDist(stations[j], lat, lon))
    && (forall j :: 0 <= j < k ==> SqDist(stations[k], lat, lon) < SqDist(stations[j], lat, lon))
  }

  /** The search loop of `nearest_station` over a table: the first station at
      minimal distance, or `fallback` when none is nearer than the initial
      bound. */
  method NearestIn(stations: seq<Station>, fallback: Station, lat: real, lon: real) returns (best: Station)
    ensures (exists k :: IsFirstNearest(stations, k, lat, lon)) ==>
              exists k :: IsFirstNearest(stations, k, lat, lon) && best == stations[k]
    ensures (forall j :: 0 <= j < |stations| ==> SqDist(stations[j], lat, lon) >= InitialBestSq) ==> best == fallback
    ensures best in stations || best == fallback
  {
    var found := false;
    ghost var bestIndex := 0;
    var bestD := InitialBestSq;
    best := fallback;
    for i := 0 to |stations|
      invariant found ==> 0 <= bestIndex < i && best == stations[bestIndex]
      invariant found ==> bestD == SqDist(stations[bestIndex], lat, lon) < InitialBestSq
      invariant !found ==> bestD == InitialBestSq && best == fallback
      invariant forall j :: 0 <= j < i ==> bestD <= SqDist(stations[j], lat, lon)
      invariant found ==> forall j :: 0 <= j < bestIndex ==> bestD < SqDist(stations[j], lat, lon)
      invariant !found ==> forall j :: 0 <= j < i ==> SqDist(stations[j], lat, lon) >= InitialBestSq
    {
      var s := stations[i];
      var d := SqDist(s, lat, lon);
      if d < bestD {
        bestD := d;
        best := s;
        bestIndex := i;
        found := true;
      }
    }
    if found {
      assert IsFirstNearest(stations, bestIndex, lat, lon);
    } else {
      forall k | 0 <= k < |stations| ensures !IsFirstNearest(stations, k, lat, lon) {
      }
    }
  }

  /** `nearest_station`: the first station of the table at minimal distance,
      or the Miami fallback when no station is nearer than the initial bound;
      either way a station of the table. */
  method NearestStation(lat: real, lon: real) returns (best: Station)
    ensures (exists k :: IsFirstNearest(UpperAirStations, k, lat, lon)) ==>
              exists k :: IsFirstNearest(UpperAirStations, k, lat, lon) && best == UpperAirStations[k]
    ensures (forall j :: 0 <= j < |UpperAirStations| ==>
               SqDist(UpperAirStations[j], lat, lon) >= InitialBestSq) ==> best == Fallback
    ensures best in UpperAirStations
  {
    best := NearestIn(UpperAirStations, Fallback, lat, lon);
    assert UpperAirStations[0] == Fallback;
  }

  // ---------------------------------------------------------------- the text format

  /** One data row: pressure (hPa), temperature and dewpoint (degrees C). */
  datatype Row = Row(p: real, t: real, td: real)

  /** The column header line carries all three of these labels. */
  predicate IsHeader(line: string) {
    Contains(line, "PRES") && Contains(line, "HGHT") && Contains(line, "TEMP")
  }

  /** Lines skipped in data mode before any field is looked at: blank lines
      (`line.strip() == ""`, see `PyText.StripEmpty`) and lines starting with
      `Station` or `(`. */
  predicate IsNoise(line: string) {
    AllSpace(line) || StartsWith(line, "Station") || StartsWith(line, "(")
  }

  /** How the temperature and dewpoint fields read: `***` marks a missing
      value; anything else must parse as a number. */
  datatype Reading = Value(v: real) | Missing | Unparsable

  function ReadField(f: string, parse: string -> Option<real>): Reading {
    if f == "***" then Missing
    else match parse(f)
      case Some(v) => Value(v)
      case None => Unparsable
  }

  /** The row a line yields in data mode, or `None` when the line is skipped.
      A field that does not parse raises `ValueError` in the source, which the
      loop catches and skips the line; the height field (index 1) is never read. */
  function RowOf(line: string, parse: string -> Option<real>): (r: Option<Row>)
    ensures r.Some? ==> 50.0 <= r.value.p <= 1050.0
  {
    if IsNoise(line) then None
    else
      var parts := Split(line);
      if |parts| < 4 then None
      else
        var pres := parse(parts[0]);
        var temp := ReadField(parts[2], parse);
        var dwpt := ReadField(parts[3], parse);
        if pres.None? || temp.Unparsable? || dwpt.Unparsable? then None   // except ValueError
        else if pres.value < 50.0 || pres.value > 1050.0 then None
        else if temp.Missing? || dwpt.Missing? then None
        else Some(Row(pres.value, temp.v, dwpt.v))
  }

  /** A line yields a row exactly when it is not noise, has at least four
      fields, its temperature and dewpoint are not `***`, its pressure,
      temperature and dewpoint parse, and the pressure is in [50, 1050]; the
      row holds those three numbers. */
  lemma RowOfSome(line: string, parse: string -> Option<real>)
    ensures RowOf(line, parse).Some? <==>
      && !IsNoise(line) && |Split(line)| >= 4
      && Split(line)[2] != "***" && Split(line)[3] != "***"
      && parse(Split(line)[0]).Some? && parse(Split(line)[2]).Some? && parse(Split(line)[3]).Some?
      && 50.0 <= parse(Split(line)[0]).value <= 1050.0
    ensures RowOf(line, parse).Some? ==>
      RowOf(line, parse).value == Row(parse(Split(line)[0]).value, parse(Split(line)[2]).value,
                                      parse(Split(line)[3]).value)
  {
  }

  /** How `parse_wyoming_text` treats a data-mode line that is not a header,
      with float parsing `parse`. */
  function Reader(parse: string -> Option<real>): string -> Option<Row> {
    line => RowOf(line, parse)
  }

  /** The rows yielded by `lines` when the scan starts with the data flag
      `inData`, reading each data line with `row`. */
  function Rows(lines: seq<string>, inData: bool, row: string -> Option<Row>): (r: seq<Row>)
    ensures |r| <= |lines|
    ensures forall x :: x in r ==> exists line :: line in lines && row(line) == Some(x)
    ensures !inData && (forall line :: line in lines ==> !IsHeader(line)) ==> r == []
  {
    if lines == [] then []
    else
      var line := lines[0];
      if IsHeader(line) then Rows(lines[1..], true, row)
      else if !inData then Rows(lines[1..], false, row)
      else
        match row(line)
        case Some(r) => [r] + Rows(lines[1..], true, row)
        case None => Rows(lines[1..], true, row)
  }

  function Pressures(rows: seq<Row>): (r: seq<real>)
    ensures |r| == |rows| && forall k :: 0 <= k < |rows| ==> r[k] == rows[k].p
  {
    seq(|rows|, k requires 0 <= k < |rows| => rows[k].p)
  }

  function Temperatures(rows: seq<Row>): (r: seq<real>)
    ensures |r| == |rows| && forall k :: 0 <= k < |rows| ==> r[k] == rows[k].t
  {
    seq(|rows|, k requires 0 <= k < |rows| => rows[k].t)
  }

  function Dewpoints(rows: seq<Row>): (r: seq<real>)
    ensures |r| == |rows| && forall k :: 0 <= k < |rows| ==> r[k] == rows[k].td
  {
    seq(|rows|, k requires 0 <= k < |rows| => rows[k].td)
  }

  /** The scan invariant `done + Rows(lines[i..], inData) == Rows(lines, false)`
      carried past line `i`, for each way the loop body can treat it. */
  lemma ScanStep(lines: seq<string>, i: nat, inData: bool, done: seq<Row>, row: string -> Option<Row>)
    requires i < |lines| && done + Rows(lines[i..], inData, row) == Rows(lines, false, row)
    ensures IsHeader(lines[i]) ==> done + Rows(lines[i + 1..], true, row) == Rows(lines, false, row)
    ensures !IsHeader(lines[i]) && (!inData || row(lines[i]).None?) ==>
              done + Rows(lines[i + 1..], inData, row) == Rows(lines, false, row)
    ensures !IsHeader(lines[i]) && inData && row(lines[i]).Some? ==>
              (done + [row(lines[i]).value]) + Rows(lines[i + 1..], true, row) == Rows(lines, false, row)
  {
    assert lines[i..][1..] == lines[i + 1..];
    RowsUnfold(lines[i..], inData, row);
    if !IsHeader(lines[i]) && inData && row(lines[i]).Some? {
      var r := row(lines[i]).value;
      assert done + ([r] + Rows(lines[i + 1..], true, row)) == (done + [r]) + Rows(lines[i + 1..], true, row);
    }
  }

  /** The pressure, temperature and dewpoint columns after one more row. */
  lemma ColumnsAppend(rows: seq<Row>, r: Row)
    ensures Pressures(rows + [r]) == Pressures(rows) + [r.p]
    ensures Temperatures(rows + [r]) == Temperatures(rows) + [r.t]
    ensures Dewpoints(rows + [r]) == Dewpoints(rows) + [r.td]
  {
  }

  /** `parse_wyoming_text`: scans the lines of `text`, switches to data mode at
      the first column header and collects the rows of the data lines into
      three parallel lists. Float parsing is the parameter `parse`. */
  method ParseWyomingText(text: string, parse: string -> Option<real>)
    returns (pList: seq<real>, tList: seq<real>, tdList: seq<real>)
    ensures |pList| == |tList| == |tdList|
    ensures var rows := Rows(SplitLines(text), false, Reader(parse));
            pList == Pressures(rows) && tList == Temperatures(rows) && tdList == Dewpoints(rows)
  {
    var lines := SplitLines(text);
    pList, tList, tdList := [], [], [];
    var inData := false;
    ghost var done: seq<Row> := [];
    for i := 0 to |lines|
      invariant done + Rows(lines[i..], inData, Reader(parse)) == Rows(lines, false, Reader(parse))
      invariant pList == Pressures(done) && tList == Temperatures(done) && tdList == Dewpoints(done)
    {
      var line := lines[i];
      ScanStep(lines, i, inData, done, Reader(parse));
      if IsHeader(line) {
        inData := true;
      } else if inData {
        var row := RowOf(line, parse);
        if row.Some? {
          var r := row.value;
          ColumnsAppend(done, r);
          pList := pList + [r.p];
          tList := tList + [r.t];
          tdList := tdList + [r.td];
          done := done + [r];
        }
      }
    }
    assert lines[|lines|..] == [];
  }

  // ---------------------------------------------------------------- properties of the parse

  /** One step of the scan. */
  lemma RowsUnfold(lines: seq<string>, inData: bool, row: string -> Option<Row>)
    requires lines != []
    ensures Rows(lines, inData, row) ==
      if IsHeader(lines[0]) then Rows(lines[1..], true, row)
      else if !inData then Rows(lines[1..], false, row)
      else if row(lines[0]).Some? then [row(lines[0]).value] + Rows(lines[1..], true, row)
      else Rows(lines[1..], true, row)
  {
  }

  /** Every returned pressure lies in [50, 1050] hPa. */
  lemma {:induction false} RowsPressureInRange(lines: seq<string>, inData: bool, parse: string -> Option<real>)
    ensures forall k :: 0 <= k < |Rows(lines, inData, Reader(parse))| ==>
              50.0 <= Rows(lines, inData, Reader(parse))[k].p <= 1050.0
  {
    forall line
      ensures Reader(parse)(line).Some? ==> 50.0 <= Reader(parse)(line).value.p <= 1050.0
    {
      assert Reader(parse)(line) == RowOf(line, parse);
    }
    RowsInRange(lines, inData, Reader(parse));
  }

  lemma {:induction false} RowsInRange(lines: seq<string>, inData: bool, row: string -> Option<Row>)
    requires forall line :: row(line).Some? ==> 50.0 <= row(line).value.p <= 1050.0
    ensures forall k :: 0 <= k < |Rows(lines, inData, row)| ==> 50.0 <= Rows(lines, inData, row)[k].p <= 1050.0
  {
    if lines != [] {
      RowsInRange(lines[1..], true, row);
      RowsInRange(lines[1..], false, row);
      RowsUnfold(lines, inData, row);
    }
  }

  /** Without a column header nothing is returned. */
  lemma {:induction false} NoHeaderNoRows(lines: seq<string>, row: string -> Option<Row>)
    requires forall j :: 0 <= j < |lines| ==> !IsHeader(lines[j])
    ensures Rows(lines, false, row) == []
  {
    if lines != [] {
      NoHeaderNoRows(lines[1..], row);
    }
  }

  /** The lines up to and including the first header contribute nothing: the
      result is that of the lines after it, read in data mode. */
  lemma {:induction false} RowsStartAfterHeader(lines: seq<string>, h: nat, row: string -> Option<Row>)
    requires h < |lines| && IsHeader(lines[h])
    requires forall j :: 0 <= j < h ==> !IsHeader(lines[j])
    ensures Rows(lines, false, row) == Rows(lines[h + 1..], true, row)
  {
    if h > 0 {
      assert lines[1..][h..] == lines[h + 1..];
      RowsStartAfterHeader(lines[1..], h - 1, row);
    }
  }

  /** Once in data mode the scan never leaves it: the rows of a concatenation
      are the rows of each part, in input order. */
  lemma {:induction false} RowsAppend(a: seq<string>, b: seq<string>, row: string -> Option<Row>)
    ensures Rows(a + b, true, row) == Rows(a, true, row) + Rows(b, true, row)
  {
    if a == [] {
      assert a + b == b;
    } else {
      var h := DataRows(a[0], row);
      assert (a + b)[0] == a[0] && (a + b)[1..] == a[1..] + b;
      calc {
        Rows(a + b, true, row);
      == { RowsCons(a + b, row); }
        h + Rows(a[1..] + b, true, row);
      == { RowsAppend(a[1..], b, row); }
        h + (Rows(a[1..], true, row) + Rows(b, true, row));
        (h + Rows(a[1..], true, row)) + Rows(b, true, row);
      == { RowsCons(a, row); }
        Rows(a, true, row) + Rows(b, true, row);
      }
    }
  }

  /** What one line contributes in data mode: its row, if it yields one. */
  function DataRows(line: string, row: string -> Option<Row>): seq<Row> {
    if !IsHeader(line) && row(line).Some? then [row(line).value] else []
  }

  /** In data mode the scan is the first line's contribution followed by the
      scan of the rest, still in data mode. */
  lemma RowsCons(lines: seq<string>, row: string -> Option<Row>)
    requires lines != []
    ensures Rows(lines, true, row) == DataRows(lines[0], row) + Rows(lines[1..], true, row)
  {
    RowsUnfold(lines, true, row);
    if IsHeader(lines[0]) || row(lines[0]).None? {
      assert [] + Rows(lines[1..], true, row) == Rows(lines[1..], true, row);
    }
  }

  /** A data-mode line that yields no row (see `RowOfSome` for when that
      happens: noise, too few fields, `***`, a field that does not parse, or a
      pressure outside [50, 1050]) is skipped without disturbing the rest of
      the scan. */
  lemma SkippedLineYieldsNothing(a: seq<string>, line: string, b: seq<string>, parse: string -> Option<real>)
    requires !IsHeader(line) && RowOf(line, parse).None?
    ensures Rows(a + [line] + b, true, Reader(parse)) == Rows(a, true, Reader(parse)) + Rows(b, true, Reader(parse))
  {
    assert Rows([line], true, Reader(parse)) == [] by {
      RowsUnfold([line], true, Reader(parse));
      assert [line][1..] == [];
    }
    calc {
      Rows(a + [line] + b, true, Reader(parse));
    == { RowsAppend(a + [line], b, Reader(parse)); }
      Rows(a + [line], true, Reader(parse)) + Rows(b, true, Reader(parse));
    == { RowsAppend(a, [line], Reader(parse)); }
      Rows(a, true, Reader(parse)) + Rows([line], true, Reader(parse)) + Rows(b, true, Reader(parse));
    == { assert Rows(a, true, Reader(parse)) + [] == Rows(a, true, Reader(parse)); }
      Rows(a, true, Reader(parse)) + Rows(b, true, Reader(parse));
    }
  }

  /** The height column is never read: two lines whose fields agree everywhere
      except at index 1 yield the same row. */
  lemma HeightIgnored(l1: string, l2: string, parse: string -> Option<real>)
    requires IsNoise(l1) == IsNoise(l2)
    requires |Split(l1)| == |Split(l2)|
    requires forall k :: 0 <= k < |Split(l1)| && k != 1 ==> Split(l1)[k] == Split(l2)[k]
    ensures RowOf(l1, parse) == RowOf(l2, parse)
  {
    RowOfSome(l1, parse);
    RowOfSome(l2, parse);
  }
}
