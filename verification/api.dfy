/**
 * The data-request entry point of the extraction API: time-scale tokens,
 * the ordered validation checks, combining the per-station downloads into
 * one table, and the read-only catalog queries.
 */
module Api {
  import opened Wrappers
  import opened Dates
  import opened Catalog
  import opened Cells
  import opened Frames
  import opened Resolution

  // ---------------------------------------------------------------------
  // Time-scale tokens
  // ---------------------------------------------------------------------

  /** The time scale of a request: a token string or the enumeration value itself. */
  datatype TimeScaleArg = Token(token: string) | Scale(scale: TimeScale)

  /** The token that names each time scale. */
  function TokenOf(ts: TimeScale): string {
    match ts
    case Daily => "daily"
    case Hourly => "hourly"
    case Monthly => "monthly"
    case Yearly => "yearly"
    case TenMinutes => "10min"
  }

  /**
   * Token to time scale: exactly the five tokens are accepted, each naming
   * its own time scale; any other token is an error; an enumeration value
   * passes through unchanged.
   */
  function ParseTimeScale(arg: TimeScaleArg): (r: Result<TimeScale, Error>)
    ensures arg.Scale? ==> r == Success(arg.scale)
    ensures arg.Token? ==> (r.Success? <==> exists ts :: TokenOf(ts) == arg.token)
    ensures arg.Token? && r.Success? ==> TokenOf(r.value) == arg.token
    ensures r.Failure? ==> r.error == InvalidTimeScale(arg.token)
  {
    match arg
    case Scale(ts) => Success(ts)
    case Token(t) =>
      if t == "daily" then assert TokenOf(Daily) == t; Success(Daily)
      else if t == "hourly" then assert TokenOf(Hourly) == t; Success(Hourly)
      else if t == "monthly" then assert TokenOf(Monthly) == t; Success(Monthly)
      else if t == "yearly" then assert TokenOf(Yearly) == t; Success(Yearly)
      else if t == "10min" then assert TokenOf(TenMinutes) == t; Success(TenMinutes)
      else Failure(InvalidTimeScale(t))
  }

  /** Every time scale's token parses back to that time scale. */
  lemma TokenRoundTrip(ts: TimeScale)
    ensures ParseTimeScale(Token(TokenOf(ts))) == Success(ts)
  {
  }

  // ---------------------------------------------------------------------
  // Requests and the validation checks, in order
  // ---------------------------------------------------------------------

  datatype Request = Request(
    stations: seq<string>,
    variables: seq<string>,
    startDate: Date,
    endDate: Date,
    timescale: TimeScaleArg,
    dwhParameters: seq<string>,
    short: bool)

  /** A request that passed every check: what is handed to the downloader. */
  datatype Plan = Plan(
    stations: set<string>,
    parameters: map<string, Parameter>,
    timescale: TimeScale,
    startDate: Date,
    endDate: Date)

  /** One downloaded per-station table. */
  datatype StationData = StationData(station: string, table: Table)

  type Expander = (string, TimeScale) -> seq<string>
  type AvailabilityOracle = (Date, Date, TimeScale) -> (bool, string)
  type DownloadOracle = (set<string>, map<string, Parameter>, Date, Date, TimeScale) -> seq<StationData>

  /** The stations that passed the station check (none when it failed). */
  function ValidStations(cat: Catalog, req: Request): set<string> {
    var st := ValidateStations(cat, req.stations);
    if st.result.Success? then st.result.value else {}
  }

  /** Variables or raw codes were asked for. */
  predicate AsksForParameters(req: Request) {
    |req.variables| > 0 || |req.dwhParameters| > 0
  }

  /** Check 2: some requested station is in the catalog. */
  predicate StationsPass(cat: Catalog, req: Request) {
    ValidateStations(cat, req.stations).result.Success?
  }

  /**
   * Check 3: when parameters are asked for, every requested code is known
   * to the catalog and at least one is exposed by a valid station.
   */
  predicate ParametersPass(cat: Catalog, req: Request, ts: TimeScale, expand: Expander) {
    var requested := RequestedCodes(req.variables, ts, req.dwhParameters, expand);
    AsksForParameters(req) ==>
      requested <= cat.parameters.Keys
      && exists c :: c in requested && ExposedBySome(cat, ValidStations(cat, req), c)
  }

  /** Check 4: the start date is not after the end date. */
  predicate RangePasses(req: Request) {
    NotAfter(req.startDate, req.endDate)
  }

  /** Check 5: monthly data is never asked for up to the current, incomplete month. */
  predicate MonthPasses(req: Request, ts: TimeScale, today: Date) {
    !(ts == Monthly && SameMonth(req.endDate, today))
  }

  /** Check 6: the provider publishes the range at this time scale. */
  predicate AvailabilityPasses(req: Request, ts: TimeScale, availability: AvailabilityOracle) {
    availability(req.startDate, req.endDate, ts).0
  }

  /**
   * The parameter checks: resolve the requested codes when any were asked
   * for; asking for some and keeping none is fatal.
   */
  function CheckParameters(cat: Catalog, req: Request, ts: TimeScale, expand: Expander)
    : (r: Outcome<map<string, Parameter>>)
    requires WellFormed(cat) && StationsPass(cat, req)
    ensures r.result.Success? <==> ParametersPass(cat, req, ts, expand)
    ensures r.result.Failure? ==> r.result.error.ParameterLookupFailed? || r.result.error.NoValidParameters?
    ensures r.result.Failure? ==>
      (r.result.error.ParameterLookupFailed? <==>
         !(RequestedCodes(req.variables, ts, req.dwhParameters, expand) <= cat.parameters.Keys))
    ensures r.result.Failure? && r.result.error.ParameterLookupFailed? ==>
      r.result.error.codes == RequestedCodes(req.variables, ts, req.dwhParameters, expand) - cat.parameters.Keys
    ensures r.result.Success? ==> (AsksForParameters(req) <==> r.result.value != map[])
    ensures r.result.Success? ==> forall c :: c in r.result.value ==>
      c in RequestedCodes(req.variables, ts, req.dwhParameters, expand)
      && ExposedBySome(cat, ValidStations(cat, req), c)
      && r.result.value[c] == cat.parameters[c]
    ensures r.result.Success? ==> forall c ::
      c in RequestedCodes(req.variables, ts, req.dwhParameters, expand) && ExposedBySome(cat, ValidStations(cat, req), c)
      ==> c in r.result.value
    ensures r.result.Success? ==>
      r.result.value == Kept(cat, ValidStations(cat, req), RequestedCodes(req.variables, ts, req.dwhParameters, expand))
    ensures AsksForParameters(req) ==>
      r.advisories == ResolveParameters(cat, ValidStations(cat, req),
                        RequestedCodes(req.variables, ts, req.dwhParameters, expand), req.startDate, req.endDate).advisories
    ensures !AsksForParameters(req) ==> r == Outcome(Success(map[]), {})
  {
    var valid := ValidStations(cat, req);
    var requested := RequestedCodes(req.variables, ts, req.dwhParameters, expand);
    if !AsksForParameters(req) then Outcome(Success(map[]), {})
    else
      var s :| s in req.stations && s in cat.stations;
      assert s in valid;
      var pr := ResolveParameters(cat, valid, requested, req.startDate, req.endDate);
      if pr.result.Failure? then pr
      else if pr.result.value == map[] then
        assert forall c :: c in requested && ExposedBySome(cat, valid, c) ==> c in pr.result.value;
        Outcome(Failure(NoValidParameters), pr.advisories)
      else
        var c :| c in pr.result.value;
        assert c in requested && ExposedBySome(cat, valid, c);
        pr
  }

  /**
   * The date checks, after stations and parameters: start <= end, then no
   * monthly data up to the current month (suggesting the last day of the
   * month before the end date's month), then the provider's availability.
   */
  function CheckDates(req: Request, ts: TimeScale, today: Date, availability: AvailabilityOracle)
    : (r: Result<(), Error>)
    requires Valid(req.startDate) && Valid(req.endDate)
    ensures r.Success? <==> RangePasses(req) && MonthPasses(req, ts, today) && AvailabilityPasses(req, ts, availability)
    ensures r.Failure? ==> IsDateError(r.error)
    ensures !RangePasses(req) ==> r == Failure(StartAfterEnd(req.startDate, req.endDate))
    ensures RangePasses(req) && !MonthPasses(req, ts, today) ==>
      match LastDayOfPreviousMonth(req.endDate)
      case Some(suggestion) => r == Failure(MonthlyCurrentMonth(suggestion))
      case None => r == Failure(DateOverflow)
    ensures RangePasses(req) && MonthPasses(req, ts, today) && !AvailabilityPasses(req, ts, availability) ==>
      r == Failure(DataNotAvailable(availability(req.startDate, req.endDate, ts).1))
  {
    if Before(req.endDate, req.startDate) then Failure(StartAfterEnd(req.startDate, req.endDate))
    else if ts == Monthly && SameMonth(req.endDate, today) then
      match LastDayOfPreviousMonth(req.endDate)
      case None => Failure(DateOverflow)
      case Some(suggestion) => Failure(MonthlyCurrentMonth(suggestion))
    else
      var (ok, reason) := availability(req.startDate, req.endDate, ts);
      if !ok then Failure(DataNotAvailable(reason)) else Success(())
  }

  predicate IsDateError(e: Error) {
    e.StartAfterEnd? || e.MonthlyCurrentMonth? || e.DateOverflow? || e.DataNotAvailable?
  }

  /**
   * All checks before the download: time scale, stations, parameters,
   * then the date checks; the first failing one decides the error, and
   * advisories are reported on both paths.
   */
  function Validate(cat: Catalog, today: Date, req: Request, expand: Expander, availability: AvailabilityOracle)
    : (r: Outcome<Plan>)
    requires WellFormed(cat) && Valid(req.startDate) && Valid(req.endDate)
    ensures ParseTimeScale(req.timescale).Failure? ==>
      r == Outcome(Failure(InvalidTimeScale(req.timescale.token)), {})
    ensures ParseTimeScale(req.timescale).Success? && !StationsPass(cat, req) ==>
      r.result == Failure(NoValidStations)
    ensures r.result.Success? <==>
      var p := ParseTimeScale(req.timescale);
      && p.Success?
      && StationsPass(cat, req)
      && ParametersPass(cat, req, p.value, expand)
      && RangePasses(req)
      && MonthPasses(req, p.value, today)
      && AvailabilityPasses(req, p.value, availability)
    ensures r.result.Failure? && (r.result.error.ParameterLookupFailed? || r.result.error.NoValidParameters?) ==>
      var p := ParseTimeScale(req.timescale);
      p.Success? && StationsPass(cat, req) && !ParametersPass(cat, req, p.value, expand)
    ensures r.result.Failure? && IsDateError(r.result.error) ==>
      var p := ParseTimeScale(req.timescale);
      && p.Success? && StationsPass(cat, req) && ParametersPass(cat, req, p.value, expand)
      && CheckDates(req, p.value, today, availability) == Failure(r.result.error)
    ensures r.result.Failure? ==> !r.result.error.NoDataDownloaded? && !r.result.error.ColumnNotFound?
    ensures r.result.Failure? && r.result.error.InvalidTimeScale? ==> ParseTimeScale(req.timescale).Failure?
    ensures r.result.Failure? && r.result.error.NoValidStations? ==>
      ParseTimeScale(req.timescale).Success? && !StationsPass(cat, req)
    ensures r.result.Failure? && r.result.error.ParameterLookupFailed? ==>
      var p := ParseTimeScale(req.timescale);
      && p.Success? && StationsPass(cat, req) && AsksForParameters(req)
      && !(RequestedCodes(req.variables, p.value, req.dwhParameters, expand) <= cat.parameters.Keys)
    ensures r.result.Failure? && r.result.error.NoValidParameters? ==>
      var p := ParseTimeScale(req.timescale);
      && p.Success? && StationsPass(cat, req) && AsksForParameters(req)
      && RequestedCodes(req.variables, p.value, req.dwhParameters, expand) <= cat.parameters.Keys
      && !exists c :: c in RequestedCodes(req.variables, p.value, req.dwhParameters, expand)
                      && ExposedBySome(cat, ValidStations(cat, req), c)
    ensures r.result.Success? ==>
      && r.result.value.stations == ValidStations(cat, req) != {}
      && r.result.value.timescale == ParseTimeScale(req.timescale).value
      && r.result.value.startDate == req.startDate
      && r.result.value.endDate == req.endDate
      && (AsksForParameters(req) <==> r.result.value.parameters != map[])
    ensures r.result.Success? ==>
      r.result.value.parameters
        == Kept(cat, r.result.value.stations,
                RequestedCodes(req.variables, r.result.value.timescale, req.dwhParameters, expand))
    ensures ParseTimeScale(req.timescale).Success? && !StationsPass(cat, req) ==>
      r.advisories == ValidateStations(cat, req.stations).advisories
    ensures ParseTimeScale(req.timescale).Success? && StationsPass(cat, req) ==>
      r.advisories == ValidateStations(cat, req.stations).advisories
                      + CheckParameters(cat, req, ParseTimeScale(req.timescale).value, expand).advisories
  {
    match ParseTimeScale(req.timescale)
    case Failure(e) => Outcome(Failure(e), {})
    case Success(ts) =>
      var st := ValidateStations(cat, req.stations);
      if st.result.Failure? then Outcome(Failure(st.result.error), st.advisories)
      else
        assert st.result.value == ValidStations(cat, req);
        var pr := CheckParameters(cat, req, ts, expand);
        var notes := st.advisories + pr.advisories;
        if pr.result.Failure? then Outcome(Failure(pr.result.error), notes)
        else
          match CheckDates(req, ts, today, availability)
          case Failure(e) => Outcome(Failure(e), notes)
          case Success(_) => Outcome(Success(Plan(st.result.value, pr.result.value, ts, req.startDate, req.endDate)), notes)
  }

  // ---------------------------------------------------------------------
  // Combining the per-station tables
  // ---------------------------------------------------------------------

  /** The temporary sort column and the station column of a station table. */
  const TimeColumn: string := "datetime_temp"
  const StationColumn: string := "station_abbr"

  function Tables(data: seq<StationData>): (ts: seq<Table>)
    ensures |ts| == |data|
    ensures forall i :: 0 <= i < |data| ==> ts[i] == data[i].table
  {
    seq(|data|, i requires 0 <= i < |data| => data[i].table)
  }

  /** Some downloaded table has column `c`. */
  predicate InSomeTable(data: seq<StationData>, c: string) {
    exists k :: 0 <= k < |data| && c in data[k].table.columns
  }

  /** `rows` is an ascending permutation of `source` by columns `ti`, `si`. */
  predicate SortedPermutation(rows: seq<Row>, source: seq<Row>, ti: nat, si: nat) {
    multiset(rows) == multiset(source) && Fits(rows, ti, si) && SortedBy(rows, ti, si)
  }

  /**
   * `out` is `t` in ascending (datetime_temp, station_abbr) order with the
   * time column removed: some ascending permutation of `t`'s rows agrees
   * with `out` on every remaining column, row by row.
   */
  ghost predicate SortedWithoutTime(out: Table, t: Table)
    requires TimeColumn in t.columns && StationColumn in t.columns
  {
    exists rows :: SortedPermutation(rows, t.rows, IndexOf(t.columns, TimeColumn), IndexOf(t.columns, StationColumn))
      && |rows| == |out.rows|
      && (forall i :: 0 <= i < |rows| ==> |rows[i]| == |t.columns|)
      && forall i, c :: 0 <= i < |rows| && c in out.columns ==>
           c in t.columns && out.rows[i][IndexOf(out.columns, c)] == rows[i][IndexOf(t.columns, c)]
  }

  /** Sort by (datetime_temp, station_abbr), then drop datetime_temp. */
  function SortAndDrop(t: Table): (r: Table)
    requires TimeColumn in t.columns && StationColumn in t.columns
    ensures forall c :: c in r.columns <==> c in t.columns && c != TimeColumn
    ensures |r.rows| == |t.rows|
    ensures SortedWithoutTime(r, t)
  {
    var ti := IndexOf(t.columns, TimeColumn);
    var si := IndexOf(t.columns, StationColumn);
    var rows := SortRows(t.rows, ti, si);
    SortedRowsFit(t, rows);
    assert SortedPermutation(rows, t.rows, ti, si);
    DropColumn(Frame(t.columns, rows), TimeColumn)
  }

  lemma SortedRowsFit(t: Table, rows: seq<Row>)
    requires multiset(rows) == multiset(t.rows)
    ensures Rectangular(Frame(t.columns, rows)) && |rows| == |t.rows|
  {
    assert |rows| == |multiset(rows)| == |multiset(t.rows)| == |t.rows|;
    forall i | 0 <= i < |rows|
      ensures |rows[i]| == |t.columns|
    {
      assert rows[i] in multiset(t.rows);
    }
  }

  /**
   * The combined table before any renaming: the diagonal concatenation of
   * the station tables, sorted with the temporary column dropped when that
   * column is present (which needs the station column to sort by).
   */
  function Arrange(data: seq<StationData>): (r: Result<Table, Error>)
    ensures r.Failure? <==> data == [] || (InSomeTable(data, TimeColumn) && !InSomeTable(data, StationColumn))
    ensures data == [] ==> r == Failure(NoDataDownloaded)
    ensures r.Failure? && data != [] ==> r.error == ColumnNotFound(StationColumn)
    ensures r.Success? ==> |r.value.rows| == TotalRows(Tables(data))
    ensures r.Success? ==> forall c :: c in r.value.columns <==> c != TimeColumn && InSomeTable(data, c)
    ensures r.Success? && !InSomeTable(data, TimeColumn) ==> r.value == DiagonalConcat(Tables(data))
    ensures r.Success? && InSomeTable(data, TimeColumn) ==>
      var t := DiagonalConcat(Tables(data));
      TimeColumn in t.columns && StationColumn in t.columns && SortedWithoutTime(r.value, t)
  {
    if data == [] then Failure(NoDataDownloaded)
    else
      var combined := DiagonalConcat(Tables(data));
      assert forall c :: c in combined.columns <==> InSomeTable(data, c) by {
        forall c ensures c in combined.columns <==> InSomeTable(data, c) {
          if InSomeTable(data, c) {
            var k :| 0 <= k < |data| && c in data[k].table.columns;
            assert c in Tables(data)[k].columns;
          }
        }
      }
      if TimeColumn in combined.columns && StationColumn !in combined.columns then
        Failure(ColumnNotFound(StationColumn))
      else if TimeColumn in combined.columns then Success(SortAndDrop(combined))
      else Success(combined)
  }

  /** Each resolved code's catalog full name. */
  function FullNames(cat: Catalog, params: map<string, Parameter>): (names: map<string, string>)
    requires params.Keys <= cat.parameters.Keys
    ensures names.Keys == params.Keys
  {
    map c | c in params :: cat.parameters[c].fullName
  }

  /**
   * The combined table, with parameter columns renamed to full names unless
   * `short`. With short names the columns are exactly the union of the
   * station tables' columns less the temporary sort column; with full names
   * a column is renamed to its parameter's catalog full name iff it is a
   * resolved code, every other column keeps its name, and no cell changes.
   */
  function Combine(cat: Catalog, data: seq<StationData>, params: map<string, Parameter>, short: bool)
    : (r: Result<Frame, Error>)
    requires params.Keys <= cat.parameters.Keys
    ensures r.Failure? <==> Arrange(data).Failure?
    ensures r.Failure? ==> r.error == Arrange(data).error
    ensures r.Success? ==> Rectangular(r.value) && |r.value.rows| == TotalRows(Tables(data))
    ensures r.Success? && short ==> r.value == Arrange(data).value
    ensures r.Success? && short ==> forall c :: c in r.value.columns <==> c != TimeColumn && InSomeTable(data, c)
    ensures r.Success? && !short ==>
      var a := Arrange(data).value;
      && r.value.rows == a.rows
      && |r.value.columns| == |a.columns|
      && (forall i :: 0 <= i < |a.columns| && a.columns[i] in params ==>
            r.value.columns[i] == cat.parameters[a.columns[i]].fullName)
      && (forall i :: 0 <= i < |a.columns| && a.columns[i] !in params ==>
            r.value.columns[i] == a.columns[i])
  {
    var arranged :- Arrange(data);
    if short then Success(arranged) else Success(RenameColumns(arranged, FullNames(cat, params)))
  }

  // ---------------------------------------------------------------------
  // The whole request
  // ---------------------------------------------------------------------

  /**
   * A data request: validate, then download the valid stations' data for
   * the resolved parameters, then combine. Every advisory comes from the
   * validation; the download is only reached once every check passed.
   */
  function GetData(
    cat: Catalog, today: Date, req: Request,
    expand: Expander, availability: AvailabilityOracle, download: DownloadOracle): (r: Outcome<Frame>)
    requires WellFormed(cat) && Valid(req.startDate) && Valid(req.endDate)
    ensures r.advisories == Validate(cat, today, req, expand, availability).advisories
    ensures r.result.Success? ==>
      var p := ParseTimeScale(req.timescale);
      && p.Success?
      && StationsPass(cat, req)
      && ParametersPass(cat, req, p.value, expand)
      && RangePasses(req)
      && MonthPasses(req, p.value, today)
      && AvailabilityPasses(req, p.value, availability)
    ensures r.result.Success? ==> NotAfter(req.startDate, req.endDate) && Rectangular(r.result.value)
    ensures r.result.Failure? && (r.result.error.NoDataDownloaded? || r.result.error.ColumnNotFound?) ==>
      Validate(cat, today, req, expand, availability).result.Success?
    ensures Validate(cat, today, req, expand, availability).result.Failure? ==>
      r.result == Failure(Validate(cat, today, req, expand, availability).result.error)
    ensures Validate(cat, today, req, expand, availability).result.Success? ==>
      var p := Validate(cat, today, req, expand, availability).result.value;
      r.result == Combine(cat, download(p.stations, p.parameters, p.startDate, p.endDate, p.timescale),
                          p.parameters, req.short)
  {
    var v := Validate(cat, today, req, expand, availability);
    match v.result
    case Failure(e) => Outcome(Failure(e), v.advisories)
    case Success(plan) =>
      var data := download(plan.stations, plan.parameters, plan.startDate, plan.endDate, plan.timescale);
      Outcome(Combine(cat, data, plan.parameters, req.short), v.advisories)
  }

  // ---------------------------------------------------------------------
  // Catalog queries
  // ---------------------------------------------------------------------

  datatype StationInfo = StationInfo(
    abbr: string,
    name: string,
    canton: string,
    latitude: real,
    longitude: real,
    heightMasl: real,
    dataSince: Option<Date>,
    availableParameters: seq<string>)

  /**
   * A station's descriptive record, or `None` for a code the catalog does
   * not know; its parameter list is the station's short codes, in order.
   */
  function GetStationInfo(cat: Catalog, code: string): (r: Option<StationInfo>)
    ensures r.None? <==> code !in cat.stations
    ensures r.Some? ==>
      var s := cat.stations[code];
      && r.value == StationInfo(s.abbr, s.name, s.canton, s.latitude, s.longitude, s.heightMasl, s.dataSince,
                                r.value.availableParameters)
      && |r.value.availableParameters| == |s.availableParameters|
      && (forall i :: 0 <= i < |s.availableParameters| ==>
            r.value.availableParameters[i] == s.availableParameters[i].shortname)
    ensures r.Some? && WellFormed(cat) ==>
      r.value.abbr == code
      && forall c :: c in r.value.availableParameters <==> c in StationCodes(cat.stations[code])
  {
    if code !in cat.stations then None
    else
      var s := cat.stations[code];
      var codes := seq(|s.availableParameters|, i requires 0 <= i < |s.availableParameters| =>
                       s.availableParameters[i].shortname);
      Some(StationInfo(s.abbr, s.name, s.canton, s.latitude, s.longitude, s.heightMasl, s.dataSince, codes))
  }

  /** The catalog's station codes, each exactly once (in no particular order). */
  method GetAvailableStations(cat: Catalog) returns (codes: seq<string>)
    ensures Distinct(codes)
    ensures forall c :: c in codes <==> c in cat.stations
  {
    codes := [];
    var rest := cat.stations.Keys;
    while rest != {}
      invariant rest <= cat.stations.Keys
      invariant Distinct(codes)
      invariant forall c :: c in codes <==> c in cat.stations && c !in rest
      decreases rest
    {
      var k :| k in rest;
      codes := codes + [k];
      rest := rest - {k};
    }
  }
}
