/**
 * Request resolution: which requested stations are valid, which provider
 * parameter codes a request asks for, which of them are kept, and the
 * advisories (non-fatal warnings) raised on the way.
 */
module Resolution {
  import opened Wrappers
  import opened Dates
  import opened Catalog

  /** The conditions that abort a data request. */
  datatype Error =
    | InvalidTimeScale(token: string)
    | NoValidStations
    | ParameterLookupFailed(codes: set<string>)
    | NoValidParameters
    | StartAfterEnd(start: Date, end: Date)
    | MonthlyCurrentMonth(suggestion: Date)
    | DateOverflow
    | DataNotAvailable(reason: string)
    | NoDataDownloaded
    | ColumnNotFound(name: string)

  /** Warnings that are reported but never abort the request. */
  datatype Advisory =
    | StationsNotAvailable(stations: set<string>)
    | ParametersNotAvailable(station: string, codes: set<string>)
    | StartBeforeDataSince(station: string, code: string, since: Date)
    | EndAfterDataTill(station: string, code: string, till: Date)

  /**
   * The result of a step together with every advisory it reported; the
   * advisories are kept on the failure path too, since they were logged
   * before the error was raised.
   */
  datatype Outcome<T> = Outcome(result: Result<T, Error>, advisories: set<Advisory>)

  // ---------------------------------------------------------------------
  // Stations
  // ---------------------------------------------------------------------

  /**
   * The valid stations are the requested codes the catalog knows; unknown
   * codes raise one advisory listing them; no valid station is fatal.
   */
  function ValidateStations(cat: Catalog, requested: seq<string>): (r: Outcome<set<string>>)
    ensures r.result.Success? <==> exists s :: s in requested && s in cat.stations
    ensures r.result.Failure? ==> r.result.error == NoValidStations
    ensures r.result.Success? ==> forall s :: s in r.result.value <==> s in requested && s in cat.stations
    ensures r.advisories != {} <==> exists s :: s in requested && s !in cat.stations
    ensures forall a :: a in r.advisories ==>
      a.StationsNotAvailable? && forall s :: s in a.stations <==> s in requested && s !in cat.stations
  {
    var asked := set s | s in requested;
    var valid := asked * cat.stations.Keys;
    var notes := if asked <= cat.stations.Keys then {} else {StationsNotAvailable(asked - cat.stations.Keys)};
    assert forall s :: s in requested && s in cat.stations ==> s in valid;
    Outcome(if valid == {} then Failure(NoValidStations) else Success(valid), notes)
  }

  // ---------------------------------------------------------------------
  // Requested codes
  // ---------------------------------------------------------------------

  /** The codes the common variable names expand to at time scale `ts`. */
  function ExpandAll(variables: seq<string>, ts: TimeScale, expand: (string, TimeScale) -> seq<string>): (codes: set<string>)
    ensures forall c :: c in codes <==> exists v :: v in variables && c in expand(v, ts)
    decreases |variables|
  {
    if variables == [] then {}
    else
      var rest := ExpandAll(variables[1..], ts, expand);
      assert forall v :: v in variables <==> v == variables[0] || v in variables[1..];
      (set c | c in expand(variables[0], ts)) + rest
  }

  /**
   * The requested code set: every code a variable expands to, plus the
   * raw provider codes; duplicates collapse.
   */
  function RequestedCodes(
    variables: seq<string>, ts: TimeScale, dwh: seq<string>,
    expand: (string, TimeScale) -> seq<string>): (codes: set<string>)
    ensures forall c :: c in codes <==> c in dwh || exists v :: v in variables && c in expand(v, ts)
  {
    ExpandAll(variables, ts, expand) + set c | c in dwh
  }

  // ---------------------------------------------------------------------
  // Parameters, one station at a time
  // ---------------------------------------------------------------------

  /** The requested parameters station `k` exposes, keyed by code. */
  function StationParameters(cat: Catalog, k: string, requested: set<string>): map<string, Parameter>
    requires WellFormed(cat) && k in cat.stations
  {
    map c | c in requested && c in StationCodes(cat.stations[k]) :: cat.parameters[c]
  }

  /** The date window the station records for a code it exposes. */
  function Window(cat: Catalog, k: string, c: string): StationParameter
    requires k in cat.stations && c in StationCodes(cat.stations[k])
  {
    ParamDict(cat.stations[k].availableParameters)[c]
  }

  /**
   * The advisories raised at station `k`: one for the requested codes it
   * lacks, and one per exposed requested code whose window starts after
   * `start` or ends before `end`.
   */
  function StationAdvisories(cat: Catalog, k: string, requested: set<string>, start: Date, end: Date): set<Advisory>
    requires k in cat.stations
  {
    var codes := StationCodes(cat.stations[k]);
    var kept := requested * codes;
    (if requested <= codes then {} else {ParametersNotAvailable(k, requested - codes)})
    + (set c | c in kept && Window(cat, k, c).dataSince.Some? && Before(start, Window(cat, k, c).dataSince.value)
         :: StartBeforeDataSince(k, c, Window(cat, k, c).dataSince.value))
    + (set c | c in kept && Window(cat, k, c).dataTill.Some? && Before(Window(cat, k, c).dataTill.value, end)
         :: EndAfterDataTill(k, c, Window(cat, k, c).dataTill.value))
  }

  /**
   * The station loop of the parameter conversion, over the valid stations
   * in the (unspecified) order `order`: each station adds its parameters
   * and advisories; building the missing-codes warning looks every missing
   * code up in the catalog, which fails for a code the catalog lacks.
   */
  function StationLoop(
    cat: Catalog, order: seq<string>, requested: set<string>, start: Date, end: Date,
    acc: map<string, Parameter>, notes: set<Advisory>): Outcome<map<string, Parameter>>
    requires WellFormed(cat)
    requires forall i :: 0 <= i < |order| ==> order[i] in cat.stations
    decreases |order|
  {
    if order == [] then Outcome(Success(acc), notes)
    else
      var k := order[0];
      var missing := requested - StationCodes(cat.stations[k]);
      if !(missing <= cat.parameters.Keys) then
        Outcome(Failure(ParameterLookupFailed(missing - cat.parameters.Keys)), notes)
      else
        StationLoop(cat, order[1..], requested, start, end,
                    acc + StationParameters(cat, k, requested),
                    notes + StationAdvisories(cat, k, requested, start, end))
  }

  // ---------------------------------------------------------------------
  // Parameters, the whole valid set at once
  // ---------------------------------------------------------------------

  predicate ExposedBySome(cat: Catalog, stations: set<string>, c: string) {
    exists k :: k in stations && k in cat.stations && c in StationCodes(cat.stations[k])
  }

  function Kept(cat: Catalog, stations: set<string>, requested: set<string>): map<string, Parameter>
    requires WellFormed(cat)
  {
    map c | c in requested && ExposedBySome(cat, stations, c) :: cat.parameters[c]
  }

  function AllAdvisories(cat: Catalog, stations: set<string>, requested: set<string>, start: Date, end: Date): set<Advisory>
    requires stations <= cat.stations.Keys
  {
    set k, a | k in stations && a in StationAdvisories(cat, k, requested, start, end) :: a
  }

  /**
   * Parameter resolution over the valid stations: a requested code is kept
   * iff some valid station exposes it, and maps to the catalog parameter
   * of that code. The conversion fails only when some requested code is
   * unknown to the catalog (and there is a station to look it up at).
   */
  function ResolveParameters(cat: Catalog, valid: set<string>, requested: set<string>, start: Date, end: Date)
    : (r: Outcome<map<string, Parameter>>)
    requires WellFormed(cat) && valid <= cat.stations.Keys
    ensures r.result.Failure? <==> valid != {} && !(requested <= cat.parameters.Keys)
    ensures r.result.Failure? ==>
      r.result.error == ParameterLookupFailed(requested - cat.parameters.Keys) && r.advisories == {}
    ensures r.result.Success? ==> forall c :: c in r.result.value <==>
      c in requested && exists k :: k in valid && c in StationCodes(cat.stations[k])
    ensures r.result.Success? ==> forall c :: c in r.result.value ==>
      r.result.value[c] == cat.parameters[c] && r.result.value[c].shortname == c
  {
    if valid != {} && !(requested <= cat.parameters.Keys) then
      Outcome(Failure(ParameterLookupFailed(requested - cat.parameters.Keys)), {})
    else
      Outcome(Success(Kept(cat, valid, requested)), AllAdvisories(cat, valid, requested, start, end))
  }

  /**
   * A successful resolution reports, for each valid station, the requested
   * codes it lacks, iff it lacks some; and never reports unknown stations.
   */
  lemma MissingCodeAdvisories(cat: Catalog, valid: set<string>, requested: set<string>, start: Date, end: Date)
    requires WellFormed(cat) && valid <= cat.stations.Keys
    requires requested <= cat.parameters.Keys
    ensures var notes := ResolveParameters(cat, valid, requested, start, end).advisories;
      && (forall k, m :: ParametersNotAvailable(k, m) in notes <==>
            k in valid && m == requested - StationCodes(cat.stations[k]) && m != {})
      && (forall a :: a in notes ==> !a.StationsNotAvailable?)
  {
    var notes := ResolveParameters(cat, valid, requested, start, end).advisories;
    forall k, m | ParametersNotAvailable(k, m) in notes
      ensures k in valid && m == requested - StationCodes(cat.stations[k]) && m != {}
    {
      var j :| j in valid && ParametersNotAvailable(k, m) in StationAdvisories(cat, j, requested, start, end);
      var codes := StationCodes(cat.stations[j]);
      assert ParametersNotAvailable(k, m) in (if requested <= codes then {} else {ParametersNotAvailable(j, requested - codes)});
      assert !(requested <= codes);
      var c :| c in requested && c !in codes;
      assert k == j && m == requested - codes && c in m;
    }
    forall k, m | k in valid && m == requested - StationCodes(cat.stations[k]) && m != {}
      ensures ParametersNotAvailable(k, m) in notes
    {
      assert ParametersNotAvailable(k, m) in StationAdvisories(cat, k, requested, start, end);
    }
    forall a | a in notes
      ensures !a.StationsNotAvailable?
    {
      var j :| j in valid && a in StationAdvisories(cat, j, requested, start, end);
    }
  }

  /**
   * A successful resolution raises a start-date advisory for a station and
   * an exposed requested code iff the station's window for that code
   * starts after the requested start date.
   */
  lemma StartDateAdvisories(cat: Catalog, valid: set<string>, requested: set<string>, start: Date, end: Date)
    requires WellFormed(cat) && valid <= cat.stations.Keys
    requires requested <= cat.parameters.Keys
    ensures var notes := ResolveParameters(cat, valid, requested, start, end).advisories;
      forall k, c, d :: StartBeforeDataSince(k, c, d) in notes <==>
        k in valid && c in requested && c in StationCodes(cat.stations[k])
        && Window(cat, k, c).dataSince == Some(d) && Before(start, d)
  {
    var notes := ResolveParameters(cat, valid, requested, start, end).advisories;
    forall k, c, d | StartBeforeDataSince(k, c, d) in notes
      ensures k in valid && c in requested && c in StationCodes(cat.stations[k])
        && Window(cat, k, c).dataSince == Some(d) && Before(start, d)
    {
      var j :| j in valid && StartBeforeDataSince(k, c, d) in StationAdvisories(cat, j, requested, start, end);
    }
    forall k, c, d | k in valid && c in requested && c in StationCodes(cat.stations[k])
        && Window(cat, k, c).dataSince == Some(d) && Before(start, d)
      ensures StartBeforeDataSince(k, c, d) in notes
    {
      assert StartBeforeDataSince(k, c, d) in StationAdvisories(cat, k, requested, start, end);
    }
  }

  /**
   * A successful resolution raises an end-date advisory for a station and
   * an exposed requested code iff the station's window for that code ends
   * before the requested end date.
   */
  lemma EndDateAdvisories(cat: Catalog, valid: set<string>, requested: set<string>, start: Date, end: Date)
    requires WellFormed(cat) && valid <= cat.stations.Keys
    requires requested <= cat.parameters.Keys
    ensures var notes := ResolveParameters(cat, valid, requested, start, end).advisories;
      forall k, c, d :: EndAfterDataTill(k, c, d) in notes <==>
        k in valid && c in requested && c in StationCodes(cat.stations[k])
        && Window(cat, k, c).dataTill == Some(d) && Before(d, end)
  {
    var notes := ResolveParameters(cat, valid, requested, start, end).advisories;
    forall k, c, d | EndAfterDataTill(k, c, d) in notes
      ensures k in valid && c in requested && c in StationCodes(cat.stations[k])
        && Window(cat, k, c).dataTill == Some(d) && Before(d, end)
    {
      var j :| j in valid && EndAfterDataTill(k, c, d) in StationAdvisories(cat, j, requested, start, end);
    }
    forall k, c, d | k in valid && c in requested && c in StationCodes(cat.stations[k])
        && Window(cat, k, c).dataTill == Some(d) && Before(d, end)
      ensures EndAfterDataTill(k, c, d) in notes
    {
      assert EndAfterDataTill(k, c, d) in StationAdvisories(cat, k, requested, start, end);
    }
  }

  // ---------------------------------------------------------------------
  // The loop computes the set-based resolution, in any station order
  // ---------------------------------------------------------------------

  lemma KeptStep(cat: Catalog, k: string, rest: set<string>, requested: set<string>)
    requires WellFormed(cat) && k in cat.stations
    ensures StationParameters(cat, k, requested) + Kept(cat, rest, requested) == Kept(cat, {k} + rest, requested)
  {
    var lhs := StationParameters(cat, k, requested) + Kept(cat, rest, requested);
    var rhs := Kept(cat, {k} + rest, requested);
    forall c | c in rhs
      ensures c in lhs
    {
      var j :| j in {k} + rest && j in cat.stations && c in StationCodes(cat.stations[j]);
      if j != k {
        assert ExposedBySome(cat, rest, c);
      }
    }
    assert lhs.Keys == rhs.Keys;
  }

  lemma AdvisoriesStep(cat: Catalog, k: string, rest: set<string>, requested: set<string>, start: Date, end: Date)
    requires k in cat.stations && rest <= cat.stations.Keys
    ensures StationAdvisories(cat, k, requested, start, end) + AllAdvisories(cat, rest, requested, start, end)
      == AllAdvisories(cat, {k} + rest, requested, start, end)
  {
  }

  /** The elements of `order`, as a set. */
  function Elements(order: seq<string>): (r: set<string>)
    ensures forall s :: s in r <==> s in order
    ensures order != [] ==> r == {order[0]} + Elements(order[1..])
  {
    set i | 0 <= i < |order| :: order[i]
  }

  /** A code unknown to the catalog is missing at the first station visited. */
  lemma StationLoopFails(
    cat: Catalog, order: seq<string>, requested: set<string>, start: Date, end: Date,
    acc: map<string, Parameter>, notes: set<Advisory>)
    requires WellFormed(cat)
    requires forall i :: 0 <= i < |order| ==> order[i] in cat.stations
    requires order != [] && !(requested <= cat.parameters.Keys)
    ensures StationLoop(cat, order, requested, start, end, acc, notes)
      == Outcome(Failure(ParameterLookupFailed(requested - cat.parameters.Keys)), notes)
  {
    var missing := requested - StationCodes(cat.stations[order[0]]);
    assert missing - cat.parameters.Keys == requested - cat.parameters.Keys;
  }

  /** One turn of the station loop, for a catalog that knows every requested code. */
  lemma StationLoopStep(
    cat: Catalog, order: seq<string>, requested: set<string>, start: Date, end: Date,
    acc: map<string, Parameter>, notes: set<Advisory>)
    requires WellFormed(cat)
    requires forall i :: 0 <= i < |order| ==> order[i] in cat.stations
    requires order != [] && requested <= cat.parameters.Keys
    ensures StationLoop(cat, order, requested, start, end, acc, notes)
      == StationLoop(cat, order[1..], requested, start, end,
                     acc + StationParameters(cat, order[0], requested),
                     notes + StationAdvisories(cat, order[0], requested, start, end))
  {
  }

  lemma MapUnionAssociative<K, V>(a: map<K, V>, b: map<K, V>, c: map<K, V>)
    ensures a + b + c == a + (b + c)
  {
  }

  lemma {:induction false} StationLoopSucceeds(
    cat: Catalog, order: seq<string>, requested: set<string>, start: Date, end: Date,
    acc: map<string, Parameter>, notes: set<Advisory>)
    requires WellFormed(cat)
    requires forall i :: 0 <= i < |order| ==> order[i] in cat.stations
    requires requested <= cat.parameters.Keys
    ensures StationLoop(cat, order, requested, start, end, acc, notes)
      == Outcome(Success(acc + Kept(cat, Elements(order), requested)),
                 notes + AllAdvisories(cat, Elements(order), requested, start, end))
    decreases |order|
  {
    var all := Elements(order);
    var kept := Kept(cat, all, requested);
    var advs := AllAdvisories(cat, all, requested, start, end);
    if order == [] {
      assert kept == map[] by {
        assert all == {};
      }
      assert advs == {} by {
        assert all == {};
      }
      assert acc + kept == acc;
      assert notes + advs == notes;
    } else {
      var k := order[0];
      var rest := Elements(order[1..]);
      var sp := StationParameters(cat, k, requested);
      var sa := StationAdvisories(cat, k, requested, start, end);
      StationLoopStep(cat, order, requested, start, end, acc, notes);
      StationLoopSucceeds(cat, order[1..], requested, start, end, acc + sp, notes + sa);
      assert all == {k} + rest;
      KeptStep(cat, k, rest, requested);
      AdvisoriesStep(cat, k, rest, requested, start, end);
      MapUnionAssociative(acc, sp, Kept(cat, rest, requested));
      assert notes + sa + AllAdvisories(cat, rest, requested, start, end) == notes + advs;
    }
  }

  /**
   * Whatever order the valid stations are visited in, the station loop
   * yields exactly the set-based resolution: same parameters, same
   * advisories, same failure.
   */
  lemma StationLoopMatchesResolution(
    cat: Catalog, order: seq<string>, valid: set<string>, requested: set<string>, start: Date, end: Date)
    requires WellFormed(cat) && valid <= cat.stations.Keys
    requires forall s :: s in valid <==> s in order
    ensures StationLoop(cat, order, requested, start, end, map[], {})
      == ResolveParameters(cat, valid, requested, start, end)
  {
    assert Elements(order) == valid;
    assert order != [] <==> valid != {} by {
      if order != [] {
        assert order[0] in valid;
      }
    }
    if !(requested <= cat.parameters.Keys) && order != [] {
      StationLoopFails(cat, order, requested, start, end, map[], {});
    } else if requested <= cat.parameters.Keys {
      StationLoopSucceeds(cat, order, requested, start, end, map[], {});
      EmptyUnions(Kept(cat, valid, requested), AllAdvisories(cat, valid, requested, start, end));
    } else {
      NothingToVisit(cat, requested, start, end);
    }
  }

  lemma EmptyUnions(m: map<string, Parameter>, s: set<Advisory>)
    ensures map[] + m == m && {} + s == s
  {
  }

  lemma NothingToVisit(cat: Catalog, requested: set<string>, start: Date, end: Date)
    requires WellFormed(cat)
    ensures ResolveParameters(cat, {}, requested, start, end) == Outcome(Success(map[]), {})
  {
    assert Kept(cat, {}, requested) == map[];
    assert AllAdvisories(cat, {}, requested, start, end) == {};
  }
}
