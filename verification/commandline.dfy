/**
 * The command-line front end after argument parsing: granularity flags to
 * a time scale, the default end date, the date-order checks, the strict
 * station check, and the arguments handed to the extractor.
 */
module CommandLine {
  import opened Wrappers
  import opened Dates
  import opened Catalog

  /** The mutually exclusive granularity flags. */
  datatype Flags = Flags(monthly: bool, daily: bool, hourly: bool, tenMinutes: bool)

  /** The command line as parsed, with both dates already read as dates. */
  datatype RawArgs = RawArgs(
    startDate: Date,
    endDate: Option<Date>,
    stations: seq<string>,
    variables: seq<string>,
    dwh: seq<string>,
    flags: Flags,
    output: Option<string>,
    verbose: bool,
    noCache: bool,
    short: bool)

  /** The arguments handed to the extractor (`MchExtractArgs`). */
  datatype ExtractArgs = ExtractArgs(
    startDate: Date,
    endDate: Date,
    stations: seq<string>,
    variables: seq<string>,
    parameters: seq<string>,
    timescale: TimeScale,
    output: Option<string>,
    verbose: bool,
    useCache: bool,
    short: bool)

  /** The conditions on which the command line is rejected. */
  datatype CliError =
    | NoGranularity
    | NoStations
    | DateOverflow
    | NoValidDates(lastValid: Date)
    | StartAfterEnd(start: Date, end: Date)
    | UnknownStations(missing: set<string>)

  /**
   * The first set flag, in the order monthly, daily, hourly, ten minutes,
   * names the time scale; the yearly scale has no flag.
   */
  function FlagsToTimeScale(f: Flags): (r: Option<TimeScale>)
    ensures r.None? <==> !f.monthly && !f.daily && !f.hourly && !f.tenMinutes
    ensures r != Some(Yearly)
    ensures r == Some(Monthly) <==> f.monthly
    ensures r == Some(Daily) <==> !f.monthly && f.daily
    ensures r == Some(Hourly) <==> !f.monthly && !f.daily && f.hourly
    ensures r == Some(TenMinutes) <==> !f.monthly && !f.daily && !f.hourly && f.tenMinutes
  {
    if f.monthly then Some(Monthly)
    else if f.daily then Some(Daily)
    else if f.hourly then Some(Hourly)
    else if f.tenMinutes then Some(TenMinutes)
    else None
  }

  /** The flag that selects each time scale (the yearly scale has none). */
  function FlagFor(f: Flags, ts: TimeScale): bool {
    match ts
    case Monthly => f.monthly
    case Daily => f.daily
    case Hourly => f.hourly
    case TenMinutes => f.tenMinutes
    case Yearly => false
  }

  /** At most one granularity flag is set, as the parser enforces. */
  predicate Exclusive(f: Flags) {
    forall a: TimeScale, b: TimeScale :: FlagFor(f, a) && FlagFor(f, b) ==> a == b
  }

  /**
   * With mutually exclusive flags the priority order is immaterial: the
   * time scale is the one whose flag is set.
   */
  lemma ExclusiveFlagDecides(f: Flags, ts: TimeScale)
    requires Exclusive(f)
    ensures FlagsToTimeScale(f) == Some(ts) <==> FlagFor(f, ts)
  {
    if f.monthly {
      assert !FlagFor(f, Daily) && !FlagFor(f, Hourly) && !FlagFor(f, TenMinutes) by {
        assert FlagFor(f, Monthly);
      }
    } else if f.daily {
      assert !FlagFor(f, Hourly) && !FlagFor(f, TenMinutes) by {
        assert FlagFor(f, Daily);
      }
    } else if f.hourly {
      assert !FlagFor(f, TenMinutes) by {
        assert FlagFor(f, Hourly);
      }
    }
  }

  /**
   * The end date used when none is given: today for hourly and ten-minute
   * data, yesterday for daily data, the last day of the previous month for
   * monthly data; for the daily and monthly defaults, a default before the
   * start date means there is no valid date to ask for.
   */
  function DefaultEndDate(ts: TimeScale, today: Date, start: Date): (r: Result<Date, CliError>)
    requires ts != Yearly && Valid(today)
    ensures (ts == Hourly || ts == TenMinutes) ==> r == Success(today)
    ensures ts == Daily && r.Success? ==>
      Valid(r.value) && Before(r.value, today) && forall x :: Valid(x) && Before(x, today) ==> NotAfter(x, r.value)
    ensures ts == Monthly && r.Success? ==>
      Valid(r.value) && Before(r.value, today) && !SameMonth(r.value, today)
      && r.value.day == DaysInMonth(r.value.year, r.value.month)
      && forall x :: Valid(x) && Before(x, today) && !SameMonth(x, today) ==> NotAfter(x, r.value)
    ensures (ts == Daily || ts == Monthly) && r.Success? ==> NotAfter(start, r.value)
    ensures r.Failure? && r.error.NoValidDates? ==>
      (ts == Daily || ts == Monthly) && Valid(r.error.lastValid) && Before(r.error.lastValid, start)
    ensures r.Failure? && r.error.DateOverflow? ==>
      (ts == Daily && today == Earliest) || (ts == Monthly && today.year == MinYear && today.month == 1)
    ensures r.Failure? ==> r.error.NoValidDates? || r.error.DateOverflow?
    ensures ts == Daily && PrevDay(today).Some? ==> (r.Success? <==> NotAfter(start, PrevDay(today).value))
    ensures ts == Daily && r.Failure? && r.error.NoValidDates? ==> Some(r.error.lastValid) == PrevDay(today)
    ensures ts == Monthly && LastDayOfPreviousMonth(today).Some? ==>
      (r.Success? <==> NotAfter(start, LastDayOfPreviousMonth(today).value))
    ensures ts == Monthly && r.Failure? && r.error.NoValidDates? ==>
      Some(r.error.lastValid) == LastDayOfPreviousMonth(today)
    ensures ts == Daily && Valid(start) && today != Earliest ==> (r.Success? <==> Before(start, today))
    ensures ts == Monthly && Valid(start) && !(today.year == MinYear && today.month == 1) ==>
      (r.Success? <==> Before(start, today) && !SameMonth(start, today))
  {
    match ts
    case Hourly => Success(today)
    case TenMinutes => Success(today)
    case Daily => LatestNotBefore(PrevDay(today), start)
    case Monthly => LatestNotBefore(LastDayOfPreviousMonth(today), start)
  }

  /** A computed default end date, rejected when it precedes the start date. */
  function LatestNotBefore(candidate: Option<Date>, start: Date): (r: Result<Date, CliError>)
    ensures candidate.None? <==> r == Failure(DateOverflow)
    ensures r.Success? ==> Some(r.value) == candidate && NotAfter(start, r.value)
    ensures r.Failure? && r.error.NoValidDates? ==>
      Some(r.error.lastValid) == candidate && Before(r.error.lastValid, start)
    ensures candidate.Some? ==> (r.Success? <==> NotAfter(start, candidate.value))
    ensures r.Failure? ==> r.error.DateOverflow? || r.error.NoValidDates?
  {
    match candidate
    case None => Failure(DateOverflow)
    case Some(end) => if Before(end, start) then Failure(NoValidDates(end)) else Success(end)
  }

  /** The end date in force: the one given, or else the time scale's default. */
  function EndDateFor(raw: RawArgs, ts: TimeScale, today: Date): Result<Date, CliError>
    requires ts != Yearly && Valid(today)
  {
    match raw.endDate
    case Some(e) => Success(e)
    case None => DefaultEndDate(ts, today, raw.startDate)
  }

  /**
   * The checks after parsing, in order: a granularity flag, at least one
   * station, the (defaulted) end date, start <= end, and every requested
   * station known to the catalog; then the extractor's arguments.
   */
  function ParseArgs(cat: Catalog, today: Date, raw: RawArgs): (r: Result<ExtractArgs, CliError>)
    requires WellFormed(cat) && Valid(today) && Valid(raw.startDate)
    requires raw.endDate.Some? ==> Valid(raw.endDate.value)
    ensures FlagsToTimeScale(raw.flags).None? <==> r == Failure(NoGranularity)
    ensures r == Failure(NoStations) <==> FlagsToTimeScale(raw.flags).Some? && raw.stations == []
    ensures r.Failure? && r.error.NoValidDates? ==> raw.endDate.None?
    ensures (exists s :: s in raw.stations && s !in cat.stations) ==> r.Failure?
    ensures r.Failure? && r.error.UnknownStations? ==>
      r.error.missing != {} && forall s :: s in r.error.missing <==> s in raw.stations && s !in cat.stations
    ensures r.Success? ==>
      && NotAfter(r.value.startDate, r.value.endDate)
      && |r.value.stations| > 0
      && (forall s :: s in r.value.stations ==> s in cat.stations)
      && Some(r.value.timescale) == FlagsToTimeScale(raw.flags)
      && r.value.timescale != Yearly
    ensures r.Success? ==>
      && r.value.startDate == raw.startDate
      && r.value.stations == raw.stations
      && r.value.variables == raw.variables
      && r.value.parameters == raw.dwh
      && r.value.output == raw.output
      && r.value.verbose == raw.verbose
      && r.value.useCache == !raw.noCache
      && r.value.short == raw.short
    ensures r.Success? && raw.endDate.Some? ==> r.value.endDate == raw.endDate.value
    ensures r.Success? && raw.endDate.None? ==>
      Success(r.value.endDate) == DefaultEndDate(r.value.timescale, today, raw.startDate)
    ensures r.Success? <==>
      var ts := FlagsToTimeScale(raw.flags);
      && ts.Some?
      && raw.stations != []
      && EndDateFor(raw, ts.value, today).Success?
      && NotAfter(raw.startDate, EndDateFor(raw, ts.value, today).value)
      && forall s :: s in raw.stations ==> s in cat.stations
    ensures r.Failure? && r.error.StartAfterEnd? ==>
      var ts := FlagsToTimeScale(raw.flags);
      && ts.Some?
      && raw.stations != []
      && EndDateFor(raw, ts.value, today).Success?
      && r.error == StartAfterEnd(raw.startDate, EndDateFor(raw, ts.value, today).value)
      && Before(r.error.end, r.error.start)
    ensures r.Failure? && (r.error.NoValidDates? || r.error.DateOverflow?) ==>
      && raw.endDate.None?
      && FlagsToTimeScale(raw.flags).Some?
      && raw.stations != []
      && DefaultEndDate(FlagsToTimeScale(raw.flags).value, today, raw.startDate) == Failure(r.error)
    ensures r.Failure? && r.error.UnknownStations? ==>
      var ts := FlagsToTimeScale(raw.flags);
      && ts.Some?
      && raw.stations != []
      && EndDateFor(raw, ts.value, today).Success?
      && NotAfter(raw.startDate, EndDateFor(raw, ts.value, today).value)
  {
    match FlagsToTimeScale(raw.flags)
    case None => Failure(NoGranularity)
    case Some(ts) =>
      if raw.stations == [] then Failure(NoStations)
      else
        var end :- EndDateFor(raw, ts, today);
        if Before(end, raw.startDate) then Failure(StartAfterEnd(raw.startDate, end))
        else
          var available := StationAbbreviations(cat);
          var requested := set s | s in raw.stations;
          AbbreviationsAreKeys(cat);
          if !(requested <= available) then
            var s :| s in requested && s !in available;
            assert s in requested - available;
            Failure(UnknownStations(requested - available))
          else Success(ExtractArgs(raw.startDate, end, raw.stations, raw.variables, raw.dwh, ts,
                                   raw.output, raw.verbose, !raw.noCache, raw.short))
  }
}
