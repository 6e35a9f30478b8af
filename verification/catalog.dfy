/**
 * The metadata catalog (`MeteoData`): stations and parameters, loaded once
 * and read-only afterwards. It is an explicit input value of every
 * operation of the model.
 */
module Catalog {
  import opened Wrappers
  import opened Dates

  /** Temporal resolution of the requested data (`TimeScale`). */
  datatype TimeScale = TenMinutes | Hourly | Daily | Monthly | Yearly

  /** A catalog parameter, identified by its provider short code. */
  datatype Parameter = Parameter(shortname: string, fullName: string, unit: string)

  /**
   * One entry of a station's `available_parameters`: the parameter code
   * together with the station's own availability window for it.
   */
  datatype StationParameter = StationParameter(
    shortname: string,
    dataSince: Option<Date>,
    dataTill: Option<Date>)

  datatype Station = Station(
    abbr: string,
    name: string,
    canton: string,
    latitude: real,
    longitude: real,
    heightMasl: real,
    dataSince: Option<Date>,
    availableParameters: seq<StationParameter>)

  datatype Catalog = Catalog(stations: map<string, Station>, parameters: map<string, Parameter>)

  /** The short codes a station exposes. */
  function StationCodes(s: Station): set<string> {
    set p | p in s.availableParameters :: p.shortname
  }

  /**
   * The catalog invariant: stations are keyed by their abbreviation,
   * parameters by their short code, and every code a station exposes is a
   * catalog parameter.
   */
  predicate WellFormed(cat: Catalog) {
    && (forall k :: k in cat.stations ==> cat.stations[k].abbr == k)
    && (forall c :: c in cat.parameters ==> cat.parameters[c].shortname == c)
    && (forall k :: k in cat.stations ==> StationCodes(cat.stations[k]) <= cat.parameters.Keys)
  }

  /** The set of abbreviations carried by the catalog's station records. */
  function StationAbbreviations(cat: Catalog): set<string> {
    set k | k in cat.stations :: cat.stations[k].abbr
  }

  /** In a well-formed catalog the records' abbreviations are exactly the keys. */
  lemma AbbreviationsAreKeys(cat: Catalog)
    requires WellFormed(cat)
    ensures StationAbbreviations(cat) == cat.stations.Keys
  {
    forall k | k in cat.stations
      ensures k in StationAbbreviations(cat)
    {
      assert cat.stations[k].abbr == k;
    }
  }

  /** Index of the last entry of `ps` whose short code is `c`. */
  predicate IsLastWith(ps: seq<StationParameter>, c: string, i: int) {
    0 <= i < |ps| && ps[i].shortname == c && forall j :: i < j < |ps| ==> ps[j].shortname != c
  }

  /**
   * A station's parameters keyed by short code, built in list order: a
   * later entry with the same code replaces an earlier one.
   */
  function ParamDict(ps: seq<StationParameter>): (d: map<string, StationParameter>)
    ensures d.Keys == set p | p in ps :: p.shortname
    decreases |ps|
  {
    if ps == [] then map[]
    else
      var init := ps[..|ps| - 1];
      var last := ps[|ps| - 1];
      assert forall p :: p in ps <==> p in init || p == last;
      ParamDict(init)[last.shortname := last]
  }

  /** The entry `ParamDict` keeps for a code is the last one with that code. */
  lemma {:induction false} ParamDictKeepsLast(ps: seq<StationParameter>, i: nat)
    requires i < |ps| && IsLastWith(ps, ps[i].shortname, i)
    ensures ps[i].shortname in ParamDict(ps) && ParamDict(ps)[ps[i].shortname] == ps[i]
    decreases |ps|
  {
    var c := ps[i].shortname;
    var init := ps[..|ps| - 1];
    var last := ps[|ps| - 1];
    assert ParamDict(ps) == ParamDict(init)[last.shortname := last];
    if i < |ps| - 1 {
      assert last.shortname != c;
      assert init[i] == ps[i];
      forall j | i < j < |init|
        ensures init[j].shortname != c
      {
        assert init[j] == ps[j];
      }
      ParamDictKeepsLast(init, i);
    }
  }
}
