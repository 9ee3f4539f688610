/** Scrape control: whether a loaded forecast page is usable (with one reload to recover
    a bad load), what one elevation's scrape yields, and the main loop over the three
    elevations with its mid-first gating, legacy fallback and combined summary. */
module Scrape {
  import opened Common
  import opened Text
  import opened Markup
  import opened Extract

  const MinPageSize: nat := 150000
  const TableMarker: string := "forecast-table"
  const DaysDiv: string := "<div class=\"" + TableMarker + "-days\""
  const BaseUrl: string := "https://www.snow-forecast.com/resorts/Avoriaz/12day"

  /** The elevations in the order they are scraped: mid is the baseline. */
  const ElevationOrder: seq<string> := ["mid", "top", "bot"]

  function ElevationUrl(name: string): string { BaseUrl + "/" + name }

  // ---------------------------------------------------------------------------
  // Page usability
  // ---------------------------------------------------------------------------

  /** The check right after loading: a forecast-table marker and more than 150000 characters. */
  predicate FirstCheckPasses(html: string) {
    (Contains(html, TableMarker) || Contains(html, DaysDiv)) && |html| > MinPageSize
  }

  /** The check after the reload. */
  predicate RecheckPasses(html: string) {
    Contains(html, TableMarker) && |html| > MinPageSize
  }

  /** The days-div marker contains "forecast-table", so the second disjunct of the first
      check never adds anything: both checks accept the same pages. */
  lemma ChecksAgree(html: string)
    ensures FirstCheckPasses(html) <==> RecheckPasses(html)
  {
    if Contains(html, DaysDiv) {
      MiddleAt("<div class=\"", TableMarker, "-days\"");
      ContainsTransitive(html, DaysDiv, TableMarker, 12);
    }
  }

  /** A loaded page: its text and its parse. */
  datatype Page = Page(html: string, doc: Node)

  /** The hourly view: no expand button, the page after expanding, or an error on the way. */
  datatype HourlyView = NoHourlyButton | HourlyPage(doc: Node) | HourlyBroken

  /** What the browser yields while one elevation is scraped. */
  datatype ElevationObs = ElevationObs(
    navigated: bool,        // both page loads completed without raising
    first: Page,            // the content after loading
    reload: Option<Page>,   // the content after the refresh; None when the refresh raised
    tables: nat,            // how many tables extract_tables kept
    hourly: HourlyView)

  datatype ElevationData = ElevationData(
    elevation: string, url: string, tables: nat,
    dynamic: seq<Period>, hourly: seq<Period>, htmlLength: nat)

  datatype ScrapeOutcome = NotScraped | Scraped(data: ElevationData) | Crashed(error: ExtractError)

  /** What scrape_elevation asks of the browser and the disk, in order, up to the
      extraction: the two page loads, each read of the page's content, the debug and raw
      HTML files written, and the refresh. */
  datatype BrowserStep = Load(url: string) | ReadContent | WriteFile(file: string) | Refresh

  const HomeUrl: string := "https://www.snow-forecast.com/"

  function DebugFile(name: string): string { "debug_" + name + "_missing_content.html" }
  function RawFile(name: string): string { "raw_forecast_" + name + ".html" }

  /** The steps of one elevation's scrape. After a navigation error nothing is recorded:
      the observations do not say which of the two loads raised. A refresh that raised
      ends the steps. */
  function ScrapeSteps(name: string, url: string, o: ElevationObs): seq<BrowserStep> {
    if !o.navigated then []
    else
      var opening := [Load(HomeUrl), Load(url), ReadContent];
      if FirstCheckPasses(o.first.html) then opening + [WriteFile(RawFile(name))]
      else
        var retry := opening + [WriteFile(DebugFile(name)), Refresh];
        match o.reload
        case None => retry
        case Some(p) => retry + [ReadContent] + (if RecheckPasses(p.html) then [WriteFile(RawFile(name))] else [])
  }

  /** The number of refreshes among `steps`. */
  function Refreshes(steps: seq<BrowserStep>): nat {
    if steps == [] then 0
    else Refreshes(steps[..|steps| - 1]) + (if steps[|steps| - 1].Refresh? then 1 else 0)
  }

  lemma {:induction false} RefreshesAppend(a: seq<BrowserStep>, b: seq<BrowserStep>)
    ensures Refreshes(a + b) == Refreshes(a) + Refreshes(b)
    decreases |b|
  {
    if b == [] {
      assert a + b == a;
    } else {
      var init := b[..|b| - 1];
      RefreshesAppend(a, init);
      assert (a + b)[..|a + b| - 1] == a + init;
    }
  }

  /** The opening loads and read contain no refresh. */
  lemma OpeningRefreshes(url: string)
    ensures Refreshes([Load(HomeUrl), Load(url), ReadContent]) == 0
  {
    assert [Load(HomeUrl), Load(url), ReadContent] == [Load(HomeUrl)] + [Load(url)] + [ReadContent];
    RefreshesAppend([Load(HomeUrl)], [Load(url)]);
    RefreshesAppend([Load(HomeUrl)] + [Load(url)], [ReadContent]);
    SingleRefreshes(Load(HomeUrl));
    SingleRefreshes(Load(url));
    SingleRefreshes(ReadContent);
  }

  /** A one-step run holds a refresh exactly when that step is one. */
  lemma SingleRefreshes(step: BrowserStep)
    ensures Refreshes([step]) == if step.Refresh? then 1 else 0
  {
    assert [step][..0] == [];
  }

  /** The scrape refreshes the page at most once, and does so exactly when both loads
      completed and the first check rejected the page. */
  lemma {:induction false} RefreshAtMostOnce(name: string, url: string, o: ElevationObs)
    ensures Refreshes(ScrapeSteps(name, url, o)) <= 1
    ensures Refreshes(ScrapeSteps(name, url, o)) == 1 <==> o.navigated && !FirstCheckPasses(o.first.html)
  {
    if o.navigated {
      var opening := [Load(HomeUrl), Load(url), ReadContent];
      OpeningRefreshes(url);
      if FirstCheckPasses(o.first.html) {
        RefreshesAppend(opening, [WriteFile(RawFile(name))]);
        SingleRefreshes(WriteFile(RawFile(name)));
      } else {
        var retry := opening + [WriteFile(DebugFile(name)), Refresh];
        RefreshesAppend(opening, [WriteFile(DebugFile(name)), Refresh]);
        assert [WriteFile(DebugFile(name)), Refresh] == [WriteFile(DebugFile(name))] + [Refresh];
        RefreshesAppend([WriteFile(DebugFile(name))], [Refresh]);
        SingleRefreshes(WriteFile(DebugFile(name)));
        SingleRefreshes(Refresh);
        if o.reload.Some? {
          var tail := if RecheckPasses(o.reload.value.html) then [WriteFile(RawFile(name))] else [];
          RefreshesAppend(retry, [ReadContent]);
          RefreshesAppend(retry + [ReadContent], tail);
          SingleRefreshes(ReadContent);
          SingleRefreshes(WriteFile(RawFile(name)));
        }
      }
    } else {
      assert ScrapeSteps(name, url, o) == [];
    }
  }

  /** The raw HTML file is written exactly when the scrape found a usable page. */
  lemma RawSavedIffUsable(name: string, url: string, o: ElevationObs)
    ensures WriteFile(RawFile(name)) in ScrapeSteps(name, url, o) <==> UsablePage(o).Some?
  {
    if o.navigated && !FirstCheckPasses(o.first.html) {
      assert RawFile(name) != DebugFile(name) by {
        assert RawFile(name)[0] == 'r' && DebugFile(name)[0] == 'd';
      }
    }
  }

  /** The page the records are read from: the first load when it passes, else the
      refreshed page when that passes the recheck, else none. */
  function UsablePage(o: ElevationObs): Option<Page> {
    if !o.navigated then None
    else if FirstCheckPasses(o.first.html) then Some(o.first)
    else match o.reload
         case None => None
         case Some(p) => if RecheckPasses(p.html) then Some(p) else None
  }

  /** Extraction errors inside the hourly step are caught and give no hourly records. */
  function HourlyOf(h: HourlyView): seq<Period> {
    match h
    case HourlyPage(doc) => (match ExtractionOf(doc) case Ok(ps) => ps case Err(_) => [])
    case _ => []
  }

  /** scrape_elevation: None on a navigation error or an unusable page; a bad colspan in
      the main table propagates. */
  function ScrapeElevation(name: string, url: string, o: ElevationObs): ScrapeOutcome {
    match UsablePage(o)
    case None => NotScraped
    case Some(p) =>
      match ExtractionOf(p.doc)
      case Err(e) => Crashed(e)
      case Ok(dynamic) => Scraped(ElevationData(name, url, o.tables, dynamic, HourlyOf(o.hourly), |p.html|))
  }

  /** Whatever page is used passes the first check, and a refreshed page is used only when
      the first load failed it. */
  lemma {:induction false} UsablePagePasses(o: ElevationObs)
    ensures UsablePage(o).Some? ==> FirstCheckPasses(UsablePage(o).value.html)
    ensures UsablePage(o).Some? && UsablePage(o).value != o.first ==> o.navigated && !FirstCheckPasses(o.first.html)
    ensures o.navigated && FirstCheckPasses(o.first.html) ==> UsablePage(o) == Some(o.first)
  {
    if UsablePage(o).Some? {
      ChecksAgree(UsablePage(o).value.html);
    }
  }

  /** A scraped elevation records its name, its page's size and the records extracted from it. */
  lemma ScrapedFromUsablePage(name: string, url: string, o: ElevationObs)
    requires ScrapeElevation(name, url, o).Scraped?
    ensures var d := ScrapeElevation(name, url, o).data;
            var p := UsablePage(o);
            p.Some? && d.elevation == name && d.url == url && d.htmlLength == |p.value.html| > MinPageSize &&
            ExtractionOf(p.value.doc) == Ok(d.dynamic)
  {
    UsablePagePasses(o);
  }

  // ---------------------------------------------------------------------------
  // The elevation loop of main
  // ---------------------------------------------------------------------------

  /** The legacy attempt when mid fails: the current page, its tables and its hourly view. */
  datatype LegacyObs = LegacyObs(page: Page, tables: nat, hourly: HourlyView)

  /** The legacy attempt stored as mid; a raised error ends the loop. */
  function LegacyData(legacy: LegacyObs): Result<ElevationData, ExtractError> {
    match ExtractionOf(legacy.page.doc)
    case Err(e) => Err(e)
    case Ok(dynamic) =>
      Ok(ElevationData("mid", ElevationUrl("mid"), legacy.tables, dynamic, HourlyOf(legacy.hourly), |legacy.page.html|))
  }

  /** The loop's state: the mid_success flag, the elevations attempted, the insertion
      order and content of all_elevation_data, and whether the loop broke or raised. */
  datatype LoopState = LoopState(
    midSuccess: bool, attempted: seq<string>, scraped: seq<string>,
    data: map<string, ElevationData>, stopped: bool, crash: Option<ExtractError>)

  /** What the legacy attempt yields. */
  type LegacyOutcome = Result<ElevationData, ExtractError>

  const Initial: LoopState := LoopState(false, [], [], map[], false, None)

  /** One iteration for elevation `name`. */
  function Step(s: LoopState, name: string, scrape: string -> ScrapeOutcome, legacy: LegacyOutcome): LoopState {
    if s.stopped || s.crash.Some? then s
    else if (name == "top" || name == "bot") && !s.midSuccess then s
    else
      var s1 := s.(attempted := s.attempted + [name]);
      match scrape(name)
      case Crashed(e) => s1.(crash := Some(e))
      case Scraped(d) =>
        s1.(midSuccess := s.midSuccess || name == "mid",
            scraped := if name in s.data then s.scraped else s.scraped + [name],
            data := s.data[name := d])
      case NotScraped =>
        if name != "mid" then s1
        else
          match legacy
          case Ok(d) => s1.(scraped := if "mid" in s.data then s.scraped else s.scraped + ["mid"],
                            data := s.data["mid" := d])
          case Err(_) => s1.(stopped := true)
  }

  function Steps(s: LoopState, names: seq<string>, scrape: string -> ScrapeOutcome, legacy: LegacyOutcome): LoopState
    decreases |names|
  {
    if names == [] then s else Steps(Step(s, names[0], scrape, legacy), names[1..], scrape, legacy)
  }

  /** The result of main's scraping phase: the error that escaped, or what was collected,
      and whether the final mid-only fallback ran. */
  datatype RunResult =
    | Aborted(error: ExtractError)
    | Completed(attempted: seq<string>, scraped: seq<string>, data: map<string, ElevationData>, fallbackRun: bool)

  function Finish(s: LoopState): RunResult {
    if s.crash.Some? then Aborted(s.crash.value)
    else Completed(s.attempted, s.scraped, s.data, s.data == map[])
  }

  /** What scrape_elevation yields for each elevation. */
  function ScrapeAll(obs: string -> ElevationObs): string -> ScrapeOutcome {
    (name: string) => ScrapeElevation(name, ElevationUrl(name), obs(name))
  }

  /** The scraping phase of main with the browser's observations. */
  function MainRun(obs: string -> ElevationObs, legacy: LegacyObs): RunResult {
    Run(ScrapeAll(obs), LegacyData(legacy))
  }

  function Run(scrape: string -> ScrapeOutcome, legacy: LegacyOutcome): RunResult {
    Finish(Steps(Initial, ElevationOrder, scrape, legacy))
  }

  method RunElevations(scrape: string -> ScrapeOutcome, legacy: LegacyOutcome) returns (r: RunResult)
    ensures r == Run(scrape, legacy)
  {
    var midSuccess := false;
    var attempted: seq<string> := [];
    var scraped: seq<string> := [];
    var data: map<string, ElevationData> := map[];
    var k := 0;
    while k < |ElevationOrder|
      invariant 0 <= k <= |ElevationOrder|
      invariant Run(scrape, legacy) ==
                Finish(Steps(LoopState(midSuccess, attempted, scraped, data, false, None), ElevationOrder[k..], scrape, legacy))
    {
      ghost var s := LoopState(midSuccess, attempted, scraped, data, false, None);
      var name := ElevationOrder[k];
      assert ElevationOrder[k..][1..] == ElevationOrder[k + 1..];
      var stopped, crash;
      midSuccess, attempted, scraped, data, stopped, crash := Iteration(midSuccess, attempted, scraped, data, name, scrape, legacy);
      ghost var next := LoopState(midSuccess, attempted, scraped, data, stopped, crash);
      if crash.Some? {
        StepsCrashed(next, ElevationOrder[k + 1..], scrape, legacy);
        return Aborted(crash.value);
      }
      if stopped {
        StepsStopped(next, ElevationOrder[k + 1..], scrape, legacy);
        break;
      }
      k := k + 1;
    }
    return Completed(attempted, scraped, data, data == map[]);
  }

  /** The body of the loop for elevation `name`. */
  method Iteration(midSuccess: bool, attempted: seq<string>, scraped: seq<string>, data: map<string, ElevationData>,
                   name: string, scrape: string -> ScrapeOutcome, legacy: LegacyOutcome)
    returns (midSuccess': bool, attempted': seq<string>, scraped': seq<string>, data': map<string, ElevationData>,
             stopped: bool, crash: Option<ExtractError>)
    ensures LoopState(midSuccess', attempted', scraped', data', stopped, crash) ==
            Step(LoopState(midSuccess, attempted, scraped, data, false, None), name, scrape, legacy)
  {
    midSuccess', attempted', scraped', data', stopped, crash := midSuccess, attempted, scraped, data, false, None;
    if (name == "top" || name == "bot") && !midSuccess {
      return;
    }
    attempted' := attempted + [name];
    var outcome := scrape(name);
    if outcome.Crashed? {
      crash := Some(outcome.error);
      return;
    }
    if outcome.Scraped? {
      if name !in data {
        scraped' := scraped + [name];
      }
      data' := data[name := outcome.data];
      if name == "mid" {
        midSuccess' := true;
      }
    } else if name == "mid" {
      var fallback := legacy;
      if fallback.Err? {
        stopped := true;
        return;
      }
      if "mid" !in data {
        scraped' := scraped + ["mid"];
      }
      data' := data["mid" := fallback.value];
    }
  }

  lemma {:induction false} StepsStopped(s: LoopState, names: seq<string>, scrape: string -> ScrapeOutcome, legacy: LegacyOutcome)
    requires s.stopped
    ensures Steps(s, names, scrape, legacy) == s
    decreases |names|
  {
    if names != [] {
      StepsStopped(Step(s, names[0], scrape, legacy), names[1..], scrape, legacy);
    }
  }

  lemma {:induction false} StepsCrashed(s: LoopState, names: seq<string>, scrape: string -> ScrapeOutcome, legacy: LegacyOutcome)
    requires s.crash.Some?
    ensures Steps(s, names, scrape, legacy) == s
    decreases |names|
  {
    if names != [] {
      StepsCrashed(Step(s, names[0], scrape, legacy), names[1..], scrape, legacy);
    }
  }

  /** The loop over the three elevations, written out. */
  lemma StepsInOrder(s: LoopState, scrape: string -> ScrapeOutcome, legacy: LegacyOutcome)
    ensures Steps(s, ElevationOrder, scrape, legacy) ==
            Step(Step(Step(s, "mid", scrape, legacy), "top", scrape, legacy), "bot", scrape, legacy)
  {
    assert ElevationOrder[1..][1..] == ["bot"];
  }

  /** The first iteration: mid is attempted, and the flag is set exactly when its scrape
      succeeded. */
  lemma MidStep(scrape: string -> ScrapeOutcome, legacy: LegacyOutcome)
    ensures var s := Step(Initial, "mid", scrape, legacy);
            s.attempted == ["mid"] && (s.midSuccess <==> scrape("mid").Scraped?) &&
            (s.stopped || s.crash.Some? ==> !scrape("mid").Scraped?)
  {
  }

  /** An iteration for top or bot: skipped unless the mid flag is set; otherwise it
      records the attempt and leaves the flag alone. */
  lemma GatedStep(s: LoopState, name: string, scrape: string -> ScrapeOutcome, legacy: LegacyOutcome)
    requires name == "top" || name == "bot"
    ensures var t := Step(s, name, scrape, legacy);
            t.midSuccess == s.midSuccess && (s.stopped ==> t.stopped) && (s.crash.Some? ==> t.crash.Some?) &&
            (if !s.stopped && s.crash.None? && s.midSuccess then t.attempted == s.attempted + [name]
             else t.attempted == s.attempted)
  {
  }

  /** The run walks the three elevations in order: mid is always attempted first; top and
      bot are attempted, in that order, exactly when mid's own scrape succeeded. */
  lemma MidGatesTopAndBot(scrape: string -> ScrapeOutcome, legacy: LegacyOutcome)
    requires Run(scrape, legacy).Completed?
    ensures var r := Run(scrape, legacy);
            var mid := scrape("mid");
            (mid.Scraped? ==> r.attempted == ["mid", "top", "bot"]) &&
            (!mid.Scraped? ==> r.attempted == ["mid"])
  {
    var s1 := Step(Initial, "mid", scrape, legacy);
    var s2 := Step(s1, "top", scrape, legacy);
    StepsInOrder(Initial, scrape, legacy);
    MidStep(scrape, legacy);
    GatedStep(s1, "top", scrape, legacy);
    GatedStep(s2, "bot", scrape, legacy);
  }

  /** The loop state's bookkeeping: the names listed are the keys of the data, and every
      key is one of the elevations. */
  ghost predicate Consistent(s: LoopState) {
    (forall n :: n in s.data <==> n in s.scraped) && (forall n :: n in s.data ==> n in ElevationOrder)
  }

  /** Every iteration keeps the bookkeeping consistent. */
  lemma StepConsistent(s: LoopState, name: string, scrape: string -> ScrapeOutcome, legacy: LegacyOutcome)
    requires Consistent(s) && name in ElevationOrder
    ensures Consistent(Step(s, name, scrape, legacy))
  {
  }

  /** scrape_mode is "multi-elevation" exactly when some elevation's data was collected,
      which is exactly when the final fallback does not run; the names listed are the keys. */
  lemma ModeMatchesData(scrape: string -> ScrapeOutcome, legacy: LegacyOutcome)
    requires Run(scrape, legacy).Completed?
    ensures var r := Run(scrape, legacy);
            (ScrapeMode(r) == "multi-elevation" <==> r.data != map[]) &&
            (r.fallbackRun <==> ScrapeMode(r) == "fallback") &&
            (forall n :: n in r.data <==> n in r.scraped) &&
            (forall n :: n in r.data ==> n in ElevationOrder)
  {
    var s1 := Step(Initial, "mid", scrape, legacy);
    var s2 := Step(s1, "top", scrape, legacy);
    StepsInOrder(Initial, scrape, legacy);
    StepConsistent(Initial, "mid", scrape, legacy);
    StepConsistent(s1, "top", scrape, legacy);
    StepConsistent(s2, "bot", scrape, legacy);
  }

  /** When mid's own scrape fails and the legacy attempt succeeds, the legacy data is
      stored as mid and still neither top nor bot is scraped: the flag stays false. */
  lemma LegacyCountsOnlyAsMid(scrape: string -> ScrapeOutcome, legacy: LegacyOutcome)
    requires scrape("mid").NotScraped?
    requires legacy.Ok?
    ensures Run(scrape, legacy) == Completed(["mid"], ["mid"], map["mid" := legacy.value], false)
  {
    var s1 := Step(Initial, "mid", scrape, legacy);
    assert ElevationOrder[1..][1..] == ["bot"];
    assert Steps(Initial, ElevationOrder, scrape, legacy) == Step(Step(s1, "top", scrape, legacy), "bot", scrape, legacy);
  }

  // ---------------------------------------------------------------------------
  // The combined summary
  // ---------------------------------------------------------------------------

  function ScrapeMode(r: RunResult): string
    requires r.Completed?
  {
    if r.data != map[] then "multi-elevation" else "fallback"
  }

  datatype ElevationSummary = ElevationSummary(
    url: string, htmlLength: nat, dynamicPeriods: nat, hourlyPeriods: nat, tablesFound: nat)

  function SummaryOf(d: ElevationData): ElevationSummary {
    ElevationSummary(d.url, d.htmlLength, |d.dynamic|, |d.hourly|, d.tables)
  }

  /** combined_meta: the elevations in insertion order, one summary per elevation, the mode. */
  datatype CombinedMeta = CombinedMeta(
    elevationsScraped: seq<string>, elevationData: map<string, ElevationSummary>, scrapeMode: string)

  function Combined(r: RunResult): (m: CombinedMeta)
    requires r.Completed?
    ensures m.elevationData.Keys == r.data.Keys
    ensures forall n :: n in r.data ==> m.elevationData[n].dynamicPeriods == |r.data[n].dynamic|
  {
    CombinedMeta(r.scraped, map n | n in r.data :: SummaryOf(r.data[n]), ScrapeMode(r))
  }
}
