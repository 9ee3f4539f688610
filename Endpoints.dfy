/** The API server's JSON endpoints that read the exported forecast files: load_json_file,
    the per-elevation endpoints with their legacy fallback, and the all-elevations endpoint. */
module Endpoints {
  import opened Common

  /** An HTTPException, by its status code. */
  datatype HttpError = HttpError(status: int)

  /** load_json_file: the parsed document; 404 when the file does not exist, 500 when
      json.load rejects it. */
  function LoadJson<T>(files: Files<T>, name: string): (r: Result<T, HttpError>)
    ensures files(name).None? <==> r == Err(HttpError(404))
    ensures files(name) == Some(Malformed) <==> r == Err(HttpError(500))
    ensures r.Ok? ==> files(name) == Some(Parsed(r.value))
  {
    match files(name)
    case None => Err(HttpError(404))
    case Some(Malformed) => Err(HttpError(500))
    case Some(Parsed(d)) => Ok(d)
  }

  /** One elevation's forecast: the four documents the endpoints return together. */
  datatype Bundle<T> = Bundle(dynamicForecast: T, hourlyForecast: T, snowSummary: T, meta: T)

  const ValidElevations: seq<string> := ["top", "mid", "bot"]

  /** The four files of one elevation, in the order the endpoints load them. */
  function ElevationNames(e: string): seq<string> {
    ["dynamic_forecast_" + e + ".json", "hourly_forecast_" + e + ".json",
     "snow_summary_" + e + ".json", "meta_" + e + ".json"]
  }

  /** The single-elevation layout of older scrapes. */
  const LegacyNames: seq<string> := ["dynamic_forecast.json", "hourly_forecast.json", "snow_summary.json", "meta.json"]

  /** A dictionary literal of four load_json_file calls. Python evaluates them left to right,
      so the first file that fails decides the error. */
  function LoadBundle<T>(files: Files<T>, names: seq<string>): (r: Result<Bundle<T>, HttpError>)
    requires |names| == 4
    ensures r.Ok? <==> forall k :: 0 <= k < 4 ==> LoadJson(files, names[k]).Ok?
    ensures r.Ok? ==> files(names[0]) == Some(Parsed(r.value.dynamicForecast)) &&
                      files(names[1]) == Some(Parsed(r.value.hourlyForecast)) &&
                      files(names[2]) == Some(Parsed(r.value.snowSummary)) &&
                      files(names[3]) == Some(Parsed(r.value.meta))
    ensures r.Err? ==> exists k :: 0 <= k < 4 && LoadJson(files, names[k]) == Err(r.error) &&
                                  forall j :: 0 <= j < k ==> LoadJson(files, names[j]).Ok?
  {
    match LoadJson(files, names[0])
    case Err(e) => Err(e)
    case Ok(d) =>
      match LoadJson(files, names[1])
      case Err(e) => Err(e)
      case Ok(h) =>
        match LoadJson(files, names[2])
        case Err(e) => Err(e)
        case Ok(s) =>
          match LoadJson(files, names[3])
          case Err(e) => Err(e)
          case Ok(m) => Ok(Bundle(d, h, s, m))
  }

  /** A load error is always a missing (404) or a malformed (500) file. */
  lemma BundleErrors<T>(files: Files<T>, names: seq<string>)
    requires |names| == 4
    ensures LoadBundle(files, names).Err? ==> LoadBundle(files, names).error.status in {404, 500}
  {
    if LoadBundle(files, names).Err? {
      var k :| 0 <= k < 4 && LoadJson(files, names[k]) == Err(LoadBundle(files, names).error);
    }
  }

  /** Two directories that hold the same files under `names`. */
  ghost predicate AgreeOn<T>(files: Files<T>, other: Files<T>, names: seq<string>) {
    forall n :: n in names ==> files(n) == other(n)
  }

  /** Loading a bundle reads its four files and nothing else. */
  lemma BundleReadsOnlyNames<T>(files: Files<T>, other: Files<T>, names: seq<string>)
    requires |names| == 4 && AgreeOn(files, other, names)
    ensures LoadBundle(files, names) == LoadBundle(other, names)
  {
    assert files(names[0]) == other(names[0]);
    assert files(names[1]) == other(names[1]);
    assert files(names[2]) == other(names[2]);
    assert files(names[3]) == other(names[3]);
  }

  // ---------------------------------------------------------------------------
  // get_forecast_by_elevation
  // ---------------------------------------------------------------------------

  datatype ElevationForecast<T> = ElevationForecast(elevation: string, data: Bundle<T>)

  /** get_forecast_by_elevation: 400 for a name outside top, mid, bot; the elevation's own
      files; when one of them fails, the legacy files for 'mid' (their error propagates) and
      404 for the others. */
  function ForecastByElevation<T>(files: Files<T>, elevation: string): (r: Result<ElevationForecast<T>, HttpError>)
    ensures r == Err(HttpError(400)) <==> elevation !in ValidElevations
    ensures r.Ok? ==> r.value.elevation == elevation
    ensures r.Err? ==> r.error.status in {400, 404, 500}
    ensures elevation in ValidElevations && elevation != "mid" ==> r.Ok? || r == Err(HttpError(404))
  {
    BundleErrors(files, ElevationNames(elevation));
    BundleErrors(files, LegacyNames);
    if elevation !in ValidElevations then Err(HttpError(400))
    else
      match LoadBundle(files, ElevationNames(elevation))
      case Ok(b) => Ok(ElevationForecast(elevation, b))
      case Err(_) =>
        if elevation == "mid" then
          match LoadBundle(files, LegacyNames)
          case Ok(b) => Ok(ElevationForecast(elevation, b))
          case Err(e) => Err(e)
        else Err(HttpError(404))
  }

  /** Only 'mid' ever reads the legacy files: any other elevation's answer depends on its
      own four files alone. */
  lemma OnlyMidFallsBack<T>(files: Files<T>, other: Files<T>, elevation: string)
    requires elevation != "mid" && AgreeOn(files, other, ElevationNames(elevation))
    ensures ForecastByElevation(files, elevation) == ForecastByElevation(other, elevation)
  {
    BundleReadsOnlyNames(files, other, ElevationNames(elevation));
  }

  /** Elevation-specific files take precedence: once they all load, the legacy files are
      not consulted and the answer is those files. */
  lemma ElevationFilesFirst<T>(files: Files<T>, elevation: string)
    requires elevation in ValidElevations && LoadBundle(files, ElevationNames(elevation)).Ok?
    ensures ForecastByElevation(files, elevation) == Ok(ElevationForecast(elevation, LoadBundle(files, ElevationNames(elevation)).value))
  {
  }

  /** 'mid' is served exactly when its own files or the legacy files all load. */
  lemma MidServedIff<T>(files: Files<T>)
    ensures ForecastByElevation(files, "mid").Ok? <==>
              LoadBundle(files, ElevationNames("mid")).Ok? || LoadBundle(files, LegacyNames).Ok?
  {
    assert "mid" in ValidElevations;
  }

  // ---------------------------------------------------------------------------
  // get_hourly_forecast_by_elevation, get_dynamic_forecast_by_elevation
  // ---------------------------------------------------------------------------

  /** One file of an elevation, for `kind` "hourly_forecast" or "dynamic_forecast": 400 for
      an unknown elevation; the legacy file for 'mid' and 404 otherwise when the elevation's
      own file fails. */
  function FileByElevation<T>(files: Files<T>, kind: string, elevation: string): (r: Result<T, HttpError>)
    ensures r == Err(HttpError(400)) <==> elevation !in ValidElevations
    ensures elevation in ValidElevations && elevation != "mid" ==> r.Ok? || r == Err(HttpError(404))
    ensures r.Ok? ==> files(kind + "_" + elevation + ".json") == Some(Parsed(r.value)) ||
                      (elevation == "mid" && files(kind + ".json") == Some(Parsed(r.value)))
    ensures elevation in ValidElevations && files(kind + "_" + elevation + ".json").Some? &&
            files(kind + "_" + elevation + ".json").value.Parsed? ==>
              r == Ok(files(kind + "_" + elevation + ".json").value.doc)
    ensures elevation == "mid" && LoadJson(files, kind + "_" + elevation + ".json").Err? ==>
              r == LoadJson(files, kind + ".json")
    ensures elevation in ValidElevations && elevation != "mid" &&
            LoadJson(files, kind + "_" + elevation + ".json").Err? ==>
              r == Err(HttpError(404))
  {
    if elevation !in ValidElevations then Err(HttpError(400))
    else
      match LoadJson(files, kind + "_" + elevation + ".json")
      case Ok(d) => Ok(d)
      case Err(_) => if elevation == "mid" then LoadJson(files, kind + ".json") else Err(HttpError(404))
  }

  /** When an elevation's four files load, the single-file endpoints return the same
      documents as the whole-elevation endpoint. */
  lemma FileEndpointsAgree<T>(files: Files<T>, elevation: string)
    requires elevation in ValidElevations && LoadBundle(files, ElevationNames(elevation)).Ok?
    ensures var b := LoadBundle(files, ElevationNames(elevation)).value;
            FileByElevation(files, "hourly_forecast", elevation) == Ok(b.hourlyForecast) &&
            FileByElevation(files, "dynamic_forecast", elevation) == Ok(b.dynamicForecast)
  {
    var names := ElevationNames(elevation);
    assert names[0] == "dynamic_forecast" + "_" + elevation + ".json";
    assert names[1] == "hourly_forecast" + "_" + elevation + ".json";
  }

  // ---------------------------------------------------------------------------
  // get_all_elevations
  // ---------------------------------------------------------------------------

  /** What the all-elevations loop stores for one elevation: its own files; for 'mid' the
      legacy files when its own do not all load; else nothing. */
  function ElevationEntry<T>(files: Files<T>, e: string): Option<Bundle<T>> {
    match LoadBundle(files, ElevationNames(e))
    case Ok(b) => Some(b)
    case Err(_) =>
      if e == "mid" then
        match LoadBundle(files, LegacyNames)
        case Ok(b) => Some(b)
        case Err(_) => None
      else None
  }

  /** The `elevations` dictionary after the first `k` elevations, in insertion order. */
  function EntriesAfter<T>(files: Files<T>, k: nat): seq<(string, Bundle<T>)>
    requires k <= |ValidElevations|
  {
    if k == 0 then []
    else
      var prev := EntriesAfter(files, k - 1);
      var e := ValidElevations[k - 1];
      match ElevationEntry(files, e)
      case Some(b) => prev + [(e, b)]
      case None => prev
  }

  datatype AllElevations<T> = AllElevations(elevations: seq<(string, Bundle<T>)>, combinedMeta: Option<T>, available: seq<string>)

  /** get_all_elevations: 404 when no elevation loaded; else the entries, combined_meta.json
      when it loads, and the list of the dictionary's keys. */
  function AllElevationsOf<T>(files: Files<T>): Result<AllElevations<T>, HttpError> {
    var entries := EntriesAfter(files, |ValidElevations|);
    if entries == [] then Err(HttpError(404))
    else
      var combined := match LoadJson(files, "combined_meta.json") case Ok(m) => Some(m) case Err(_) => None;
      Ok(AllElevations(entries, combined, Keys(entries)))
  }

  method GetAllElevations<T>(files: Files<T>) returns (r: Result<AllElevations<T>, HttpError>)
    ensures r == AllElevationsOf(files)
  {
    var entries: seq<(string, Bundle<T>)> := [];
    for k := 0 to |ValidElevations|
      invariant entries == EntriesAfter(files, k)
    {
      var e := ValidElevations[k];
      var own := LoadBundle(files, ElevationNames(e));
      if own.Ok? {
        entries := entries + [(e, own.value)];
      } else if e == "mid" {
        var legacy := LoadBundle(files, LegacyNames);
        if legacy.Ok? {
          entries := entries + [(e, legacy.value)];
        }
      }
    }
    if entries == [] {
      return Err(HttpError(404));
    }
    var meta := LoadJson(files, "combined_meta.json");
    var combined := if meta.Ok? then Some(meta.value) else None;
    return Ok(AllElevations(entries, combined, Keys(entries)));
  }

  /** The all-elevations loop stores an elevation exactly when its own endpoint serves it,
      and stores the same documents. */
  lemma EntryMatchesEndpoint<T>(files: Files<T>, e: string, b: Bundle<T>)
    requires e in ValidElevations
    ensures ElevationEntry(files, e) == Some(b) <==> ForecastByElevation(files, e) == Ok(ElevationForecast(e, b))
  {
  }

  /** An elevation is left out of the all-elevations answer exactly when its own endpoint fails. */
  lemma EntryMissingIff<T>(files: Files<T>, e: string)
    requires e in ValidElevations
    ensures ElevationEntry(files, e).None? <==> ForecastByElevation(files, e).Err?
  {
  }

  /** The elevations among the first `k` that the loop stores, in order top, mid, bot. */
  function Served<T>(files: Files<T>, k: nat): seq<string>
    requires k <= |ValidElevations|
  {
    if k == 0 then []
    else Served(files, k - 1) + (if ElevationEntry(files, ValidElevations[k - 1]).Some? then [ValidElevations[k - 1]] else [])
  }

  /** The dictionary's keys are the served elevations, in order, and each entry holds what
      that elevation's loader produced. */
  lemma {:induction false} EntriesKeys<T>(files: Files<T>, k: nat)
    requires k <= |ValidElevations|
    ensures Keys(EntriesAfter(files, k)) == Served(files, k)
    ensures forall j :: 0 <= j < |EntriesAfter(files, k)| ==>
              ElevationEntry(files, EntriesAfter(files, k)[j].0) == Some(EntriesAfter(files, k)[j].1)
  {
    if k > 0 {
      EntriesKeys(files, k - 1);
      var prev := EntriesAfter(files, k - 1);
      var e := ValidElevations[k - 1];
      match ElevationEntry(files, e)
      case None =>
      case Some(b) =>
        var next := prev + [(e, b)];
        assert next[..|next| - 1] == prev;
    }
  }

  /** No elevation stored among the first `k` exactly when none of them is served. */
  lemma {:induction false} EntriesEmptyIff<T>(files: Files<T>, k: nat)
    requires k <= |ValidElevations|
    ensures EntriesAfter(files, k) == [] <==> forall j :: 0 <= j < k ==> ElevationEntry(files, ValidElevations[j]).None?
  {
    if k > 0 {
      EntriesEmptyIff(files, k - 1);
    }
  }

  /** The all-elevations endpoint fails, always with 404, exactly when every single-elevation
      endpoint fails; otherwise it lists the served elevations. */
  lemma AllElevations404Iff<T>(files: Files<T>)
    ensures AllElevationsOf(files).Err? ==> AllElevationsOf(files) == Err(HttpError(404))
    ensures AllElevationsOf(files).Err? <==> forall e :: e in ValidElevations ==> ForecastByElevation(files, e).Err?
    ensures AllElevationsOf(files).Ok? ==> AllElevationsOf(files).value.available == Served(files, |ValidElevations|)
  {
    EntriesEmptyIff(files, |ValidElevations|);
    EntriesKeys(files, |ValidElevations|);
    forall e | e in ValidElevations
      ensures ElevationEntry(files, e).None? <==> ForecastByElevation(files, e).Err?
    {
      EntryMissingIff(files, e);
    }
  }
}
