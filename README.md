# snowscrape, modelled in Dafny

snowscrape scrapes the 12-day forecast of a ski resort, at three elevations, from
snow-forecast.com. It then has a language model write a ski forecast from the hourly
data, and serves the exported files and the forecast page over HTTP. This project models
the decision logic of the three core files and proves properties of that model:

- **The scraper** (`src/snowscrape/scraper.py`):
  - the interactive forecast table is flattened into one record per time slot;
  - the snow columns are selected for the summary export;
  - the page-usability check allows at most one reload;
  - the login flow either reuses a session or submits the form once;
  - the main loop runs over the elevations mid, top and bot, with mid-first gating, a
    legacy fallback and the `scrape_mode` flag.
- **The forecast generator** (`src/snowscrape/forecast_generator.py`):
  - the line-by-line state machine that splits a model response into an HTML section and
    a Markdown section;
  - the marker-based fallback split;
  - the precedence of the hourly forecast files.
- **The API server** (`api_server.py`):
  - the manual `.env` fallback;
  - the `/debug/env` masking;
  - the precipitation-event and hourly tables of the forecast page;
  - the cache-age text and the cached forecast body;
  - `load_json_file` and the per-elevation and all-elevations endpoints.

Foreign inputs become plain values:

- the parsed page is a `Markup.Node` tree, and its queries are `find`, `find_all` and
  `get_text(strip=True)`;
- the browser is a record of what it would show at each step (`Login.LoginSite`,
  `Scrape.ElevationObs`);
- the file system is a function from file name to absent, malformed or parsed
  (`Common.Files`);
- the clock is an integer parameter.

Python `str` behaviour is written out in `Text.dfy`:

- `strip` uses Python's whitespace set;
- `lower` is ASCII lowercasing;
- `find`, `in`, `split('\n')`, `join`, `str(int)` and `:03d` follow Python.

Loops of the source are methods with loop invariants. Each is proved equal to a
recursive specification function, and the source's promises are lemmas about those
functions.

Modules, one per file: `Common`, `Text`, `Markup`, `Extract`, `Columns`, `Scrape`,
`Login`, `Responses`, `Api`, `Endpoints`.

## Where the model follows the code rather than the design

- **Page usability.** The design says a page is usable when it has either of two
  structural markers. The code rechecks after the reload with only one of them.
  `Scrape.ChecksAgree` proves that the two checks accept the same pages, because the
  second marker contains the first.
- **Records per day header.** The design says a header with `colspan = k` yields exactly
  `k` records. In the code, the records stop at the last time label. `Extract.HeaderBlock`
  states the property with that cut.
- **Aborted runs.** The design says a failing elevation never aborts the whole run. In
  the code, a `colspan` that `int()` rejects raises out of `scrape_elevation` and ends
  `main`. The model carries this as `Scrape.Aborted`.

## Model

| member | source | states |
|---|---|---|
| Extract.ParseIntStr | src/snowscrape/scraper.py:360 | int() reads back the decimal text of every integer, negative ones included, so every colspan written by str() parses to its value |
| Extract.GatherErrorPersists | src/snowscrape/scraper.py:351-361 | once a day cell among the first k has a colspan int() rejects, that error is the result of the whole header parse |
| Extract.GatherCells | src/snowscrape/scraper.py:351-361 | the loop over the day cells yields exactly the cells' headers in order, skipping cells without a header, or the first colspan error |
| Extract.ParseDateHeaders | src/snowscrape/scraper.py:349-361 | the day-header loop yields one header per day cell that has both the name div and the date div, in order; colspan defaults to 1 and is read only for such cells |
| Extract.CollectLabels | src/snowscrape/scraper.py:366-380 | the loop over the time cells appends exactly the labels the cells give, in cell order |
| Extract.ParseTimeLabels | src/snowscrape/scraper.py:364-380 | the time-label loop yields the labels of span.en, else the first span, else the non-empty cell text, in order |
| Extract.LabelsAppend | src/snowscrape/scraper.py:366-380 | the labels of two runs of cells are the labels of the first run followed by those of the second |
| Extract.UnlabelledCellSkipped | src/snowscrape/scraper.py:376-380 | a time cell with no span and empty text adds no label, so the labels after it move one position to the left |
| Extract.StartMono | src/snowscrape/scraper.py:397-400 | the first slot of a day header never comes before the first slot of an earlier header |
| Extract.HeaderIndex | src/snowscrape/scraper.py:399-401 | every slot below the total span lies in the block of one day header |
| Extract.HeaderIndexUnique | src/snowscrape/scraper.py:399-401 | a slot in header j's block is below the total span, and the header found for it is j |
| Extract.Expand | src/snowscrape/scraper.py:397-408 | the number of records is min(sum of spans, number of time labels); record i has period_index i and time_period equal to the i-th label |
| Extract.ExpandNumbering | src/snowscrape/scraper.py:402-408 | in the expansion, record i has index i and the i-th time label |
| Extract.ExpandLoop | src/snowscrape/scraper.py:397-486 | the nested header and span loop, with its global counter and its guard against running out of labels, yields exactly the expansion |
| Extract.ExpandPeriods | src/snowscrape/scraper.py:397-486 | the record loop yields the expansion of the headers and labels over the table |
| Extract.ExtractDynamicForecast | src/snowscrape/scraper.py:334-488 | the extractor: no records without the table; no headers or labels when their row is missing; the first colspan error raises; otherwise the expansion |
| Extract.HeaderBlock | src/snowscrape/scraper.py:399-408 | every slot of header j's block that has a time label yields a record carrying header j's date, day name and day number, so a header's records are consecutive |
| Extract.RecordHasHeader | src/snowscrape/scraper.py:399-408 | every record lies in the block of some header and carries its date |
| Extract.Truncation | src/snowscrape/scraper.py:401-408 | when the labels run out inside header j's block, there are exactly as many records as labels and the last one carries the last label and header j's date, so the rest of that block and every later header yield nothing |
| Extract.TemperatureField | src/snowscrape/scraper.py:465-471 | a temperature is absent exactly when its row is missing or too short; when present it is the data-value if that is not empty, else the cell text |
| Extract.SnowVerbatim | src/snowscrape/scraper.py:441-447 | a non-empty data-value on the snow-amount div is copied verbatim, "—" included |
| Columns.SnowColumns | src/snowscrape/scraper.py:287-293 | the selected columns are snow columns of the table, and there are no more of them than columns |
| Columns.GuessSnowColumns | src/snowscrape/scraper.py:287-293 | the loop over the columns keeps exactly the snow columns, in column order |
| Columns.SnowColumnsMembers | src/snowscrape/scraper.py:287-293 | a column is selected exactly when it is a column of the table whose text has the word snow, cm or fresh |
| Columns.SnowColumnsNoDup | src/snowscrape/scraper.py:287-293 | distinct columns give distinct selected columns |
| Columns.SnowHeaderMatches | src/snowscrape/scraper.py:290-291 | example: a two-level header ("Snow", "(cm)") is joined with a space and matches |
| Columns.SnowfallDoesNotMatch | src/snowscrape/scraper.py:291 | example: "Snowfall" does not match: the words must stand on word boundaries |
| Columns.KeepLoop | src/snowscrape/scraper.py:506-512 | the keep loop starts from the snow columns and appends each date, day, time or period column not yet kept |
| Columns.Keep | src/snowscrape/scraper.py:505-512 | the keep list of a table, built from its snow columns |
| Columns.KeepPrefix | src/snowscrape/scraper.py:506 | the snow columns stay first in the keep list, in their order |
| Columns.KeepStep | src/snowscrape/scraper.py:508-512 | each step of the keep loop leaves the list alone or appends one column |
| Columns.KeepMembers | src/snowscrape/scraper.py:506-512 | a column is kept exactly when it is a snow column or one of the table's date columns |
| Columns.KeepNoDup | src/snowscrape/scraper.py:511-512 | the keep list has no duplicates when the snow columns have none |
| Columns.KeepColumnsProps | src/snowscrape/scraper.py:506-512 | the keep list starts with the snow columns, holds exactly the snow and date columns of the table, and has no duplicates for a table without duplicate columns |
| Columns.SnowFrames | src/snowscrape/scraper.py:502-513 | there is at most one snow frame per table |
| Columns.SelectSnowFrames | src/snowscrape/scraper.py:502-513 | the export loop makes one frame, of the kept columns, per table that has a snow column, in table order |
| Scrape.ChecksAgree | src/snowscrape/scraper.py:591-613 | the first usability check and the recheck after the reload accept the same pages |
| Scrape.UsablePagePasses | src/snowscrape/scraper.py:591-621 | the page used always passes the check; a page other than the first load is used only after the first check rejected it; a first load that passes is used as it is |
| Scrape.RefreshesAppend | src/snowscrape/scraper.py:597-621 | the refreshes of two runs of browser steps add up |
| Scrape.RefreshAtMostOnce | src/snowscrape/scraper.py:558-621 | the browser steps of one scrape hold at most one refresh, and one exactly when both loads completed and the first check rejected the page |
| Scrape.RawSavedIffUsable | src/snowscrape/scraper.py:596-627 | the raw HTML file is written exactly when the scrape found a usable page |
| Scrape.ScrapedFromUsablePage | src/snowscrape/scraper.py:583-647 | a scraped elevation records its name, URL and page size (over 150000) and the records extracted from the usable page |
| Scrape.RunElevations | src/snowscrape/scraper.py:684-753 | the elevation loop yields exactly the reference run of main's scraping phase |
| Scrape.Iteration | src/snowscrape/scraper.py:690-753 | one pass of the loop body updates mid_success, the attempts and all_elevation_data as one reference step does |
| Scrape.StepsStopped | src/snowscrape/scraper.py:751-753 | after the break of a failed legacy attempt, no later elevation changes anything |
| Scrape.StepsCrashed | src/snowscrape/scraper.py:699 | after an extraction error escapes scrape_elevation, no later elevation changes anything |
| Scrape.StepsInOrder | src/snowscrape/scraper.py:687-690 | the loop visits mid, then top, then bot |
| Scrape.MidStep | src/snowscrape/scraper.py:699-703 | mid is always attempted and sets mid_success exactly when its scrape succeeded |
| Scrape.GatedStep | src/snowscrape/scraper.py:695-697 | top and bot are skipped unless mid_success is set, and never change the flag |
| Scrape.MidGatesTopAndBot | src/snowscrape/scraper.py:687-703 | top and bot are attempted, in that order after mid, exactly when mid's own scrape succeeded; otherwise only mid is attempted |
| Scrape.StepConsistent | src/snowscrape/scraper.py:700-747 | every iteration keeps the scraped names equal to the keys of all_elevation_data, and each key an elevation |
| Scrape.ModeMatchesData | src/snowscrape/scraper.py:756-784 | scrape_mode is "multi-elevation" exactly when some elevation's data was collected, and "fallback" exactly when the final fallback runs |
| Scrape.LegacyCountsOnlyAsMid | src/snowscrape/scraper.py:721-748 | when mid fails and the legacy attempt succeeds, its data is stored as mid, the flag stays false, and top and bot are skipped |
| Scrape.Combined | src/snowscrape/scraper.py:780-794 | the combined summary has one entry per collected elevation, with that elevation's period count |
| Login.FirstIndex | src/snowscrape/scraper.py:105-115 | the index found satisfies the test and every earlier one fails it; none is found only when every element fails |
| Login.FirstMatch | src/snowscrape/scraper.py:104-115 | the break loop over a list finds the first element that passes the test |
| Login.FindSubmit | src/snowscrape/scraper.py:104-122 | the submit step clicks the first candidate present, else presses Enter in the password field |
| Login.FindFormFailure | src/snowscrape/scraper.py:153-198 | the form-still-visible branch reports the logged_in flag first, then the first visible non-empty error element, then the first error phrase |
| Login.EnsureLogin | src/snowscrape/scraper.py:35-222 | the login method performs exactly the reference actions and reaches the reference outcome |
| Login.SubmitsAppend | src/snowscrape/scraper.py:104-122 | the submit actions of two action runs are those of the first run followed by those of the second |
| Login.SessionReused | src/snowscrape/scraper.py:41-50 | when the probe URL lacks "login", the flow opens the target page and does nothing else |
| Login.SubmitsNone | src/snowscrape/scraper.py:54-77 | a run of actions with no click or Enter contains no submit |
| Login.FlowActions | src/snowscrape/scraper.py:54-140 | with a form and credentials, the flow opens, fills both fields and submits; on local success it then saves the session and opens the target |
| Login.OneSubmit | src/snowscrape/scraper.py:104-122 | one submit between actions that are not submits is the only submit |
| Login.OpeningSubmitsNothing | src/snowscrape/scraper.py:54-77 | opening the login page, accepting consent and filling the fields submit nothing |
| Login.SubmitExactlyOnce | src/snowscrape/scraper.py:90-122 | once the form is filled, the flow submits exactly once |
| Login.SubmitIsFirstMatch | src/snowscrape/scraper.py:90-122 | a click happens exactly when some candidate is present, and it is on the first present candidate in list order |
| Login.SubmitCandidatesDistinct | src/snowscrape/scraper.py:90-103 | fact about the constant list: the candidate selectors are pairwise distinct, so the click names its position |
| Login.LoggedInEndsOnTarget | src/snowscrape/scraper.py:129-218 | a successful login ends on the target page, and, after a fresh login, right after saving the session |
| Login.FailureStaysOnLogin | src/snowscrape/scraper.py:129-207 | a login rejected after submitting was redirected to the login page and stayed on it |
| Responses.Kind | src/snowscrape/forecast_generator.py:259-265 | a line is an html header exactly when it passes the html test, and a markdown header exactly when it passes only the markdown test |
| Responses.Collected | src/snowscrape/forecast_generator.py:267-271 | no header line is ever copied into a section, and no more lines are copied than were read |
| Responses.ParseOf | src/snowscrape/forecast_generator.py:239-287 | as written: the line split when both of its sections are non-empty, otherwise exactly what alternative_parse returns; raw is the response; only an empty response gives two empty sections |
| Responses.CollectLoop | src/snowscrape/forecast_generator.py:255-271 | the line loop copies into each section exactly the body lines read while that section was current |
| Responses.CollectSections | src/snowscrape/forecast_generator.py:249-271 | the state machine with the html-first header test fills both sections as the reference does |
| Responses.SplitLines | src/snowscrape/forecast_generator.py:249-275 | the joined and stripped sections are those of the reference line split |
| Responses.ParseResponse | src/snowscrape/forecast_generator.py:239-287 | the parser method returns the line split when both sections are non-empty, else the as-written alternative_parse; raw is the response |
| Responses.ParseOfFixed | src/snowscrape/forecast_generator.py:239-287 | corrected: the line split when both sections are non-empty, otherwise the corrected fallback split; only an empty response gives two empty sections |
| Responses.ParseResponseFixed | src/snowscrape/forecast_generator.py:239-287 | the parser method with the corrected fallback returns ParseOfFixed |
| Responses.PreambleDiscarded | src/snowscrape/forecast_generator.py:253-271 | lines before the first header are copied nowhere |
| Responses.SectionBody | src/snowscrape/forecast_generator.py:255-271 | after a header, the body lines up to the next header go unmodified and in order to that header's section, and the other section is unchanged |
| Responses.MarkerIndex | src/snowscrape/forecast_generator.py:306-320 | the marker chosen is the first in list order that occurs after the threshold; every earlier marker is missing or too early |
| Responses.MarkerPos | src/snowscrape/forecast_generator.py:306-320 | a marker position found lies after the threshold and within the text |
| Responses.MarkdownStart | src/snowscrape/forecast_generator.py:313-320 | as written, a markdown start found lies after html_start |
| Responses.SplitAt | src/snowscrape/forecast_generator.py:322-344 | raw is the response; with neither marker found both outputs are the whole response; only an empty response gives two empty sections |
| Responses.SplitAtSections | src/snowscrape/forecast_generator.py:322-344 | with both markers found html is the stripped text from html_start up to md_start and markdown the stripped text from md_start on, unless both are empty; with one found that section runs to the end and the other is empty |
| Responses.AlternativeSplit | src/snowscrape/forecast_generator.py:289-344 | as written: raw is the response; its sections follow from SplitAtSections at html_start and md_start |
| Responses.AlternativeSections | src/snowscrape/forecast_generator.py:289-344 | as written, with html_start and md_start found, html is the stripped response between them and markdown the stripped response from md_start on, unless both are empty |
| Responses.FindMarker | src/snowscrape/forecast_generator.py:306-320 | the break loop over a marker list finds the position and index of the first marker, in list order, that occurs after the threshold |
| Responses.SplitAtMarkers | src/snowscrape/forecast_generator.py:322-344 | the slices at the two positions are stripped, with the whole response for both when both come out empty |
| Responses.AlternativeParse | src/snowscrape/forecast_generator.py:289-344 | the fallback method searches the html markers, then the markdown markers after html_start, and returns the as-written split |
| Responses.AlternativeParseFixed | src/snowscrape/forecast_generator.py:289-344 | corrected: the markdown markers are searched after the whole html marker, and the result is the corrected split |
| Responses.HashMarkerCutsHtmlHeader | src/snowscrape/forecast_generator.py:314-320 | as written, for "## HTML\nSnow" the "# " marker matches inside the html header, and the html output is "#" |
| Responses.ParseCutsHtmlHeader | src/snowscrape/forecast_generator.py:281-320 | as written, the whole parser returns html "#" for "## HTML\nSnow": its line split has no markdown section, so the cut fallback is the result |
| Responses.MarkdownStartFixed | src/snowscrape/forecast_generator.py:313-320 | corrected: a markdown start found lies after html_start |
| Responses.AlternativeSplitFixed | src/snowscrape/forecast_generator.py:289-344 | corrected: raw is the response |
| Responses.MarkdownAfterHtmlMarker | src/snowscrape/forecast_generator.py:314-320 | corrected: a markdown section found starts after the whole html marker |
| Responses.FixedAgreesWithoutHtml | src/snowscrape/forecast_generator.py:314-320 | the correction changes nothing for a response without an html marker |
| Responses.HtmlMarkersTrimmed | src/snowscrape/forecast_generator.py:306 | fact about the constant list: no html marker begins or ends with whitespace |
| Responses.MarkerInResponse | src/snowscrape/forecast_generator.py:300-307 | a marker found in the lower-cased response reads back, lower-cased, from the response itself |
| Responses.SplitKeepsMarker | src/snowscrape/forecast_generator.py:325-326 | when the markdown slice starts after the whole marker found at html_start, the html output begins with that marker |
| Responses.FixedKeepsHtmlMarker | src/snowscrape/forecast_generator.py:306-326 | corrected: the html output begins with the html marker that was found |
| Responses.LoadElevations | src/snowscrape/forecast_generator.py:47-59 | the loop over the elevations loads each existing file, in order; the first file that is malformed, or whose document has no `len()`, raises |
| Responses.LoadHourlyForecast | src/snowscrape/forecast_generator.py:37-74 | the loader returns the elevation files, else the legacy file as mid, else FileNotFoundError; a malformed file raises, and so does a document without a length (TypeError from `len(data)` at lines 57 and 68) |
| Responses.LoadErrorPersists | src/snowscrape/forecast_generator.py:53-56 | once a file fails to parse, that error is the loader's result |
| Responses.LoadedKeys | src/snowscrape/forecast_generator.py:47-59 | the loop succeeds exactly when every existing file parses into a document that has a length, and then its keys are exactly the elevations whose file exists, in order |
| Responses.ExistingEmpty | src/snowscrape/forecast_generator.py:62 | no elevation is loaded exactly when no elevation file exists |
| Responses.LoadedReadsOnly | src/snowscrape/forecast_generator.py:50-56 | the loop depends only on the elevation files |
| Responses.LegacyIgnored | src/snowscrape/forecast_generator.py:61-64 | when some elevation file exists, the legacy file is never read |
| Responses.LegacyAsMid | src/snowscrape/forecast_generator.py:61-72 | with no elevation file, a legacy document with a length is stored as mid; one without a length raises TypeError, a malformed file raises, and a missing one raises FileNotFoundError |
| Api.SplitAtEquals | api_server.py:35 | split('=', 1): the key holds no '=', and key, '=' and value make up the line |
| Api.ParseEnvLine | api_server.py:33-37 | a line is skipped exactly when, stripped, it is empty, starts with '#', or has no '='; an assigned key never holds '=' and is the text before the first '='; the value is the rest of the line with quote characters stripped from both ends, so it neither starts nor ends with a quote |
| Api.NoEarlierEquals | api_server.py:35 | find locates the first '=' |
| Api.EqualsFound | api_server.py:34 | the substring test for '=' agrees with character membership |
| Api.FirstEqualsAfterKey | api_server.py:35 | the split of key=value gives back key and value when the key has no '=', so the value may hold '=' |
| Api.ParseEnvLineInverse | api_server.py:33-37 | a well-formed key=value line reads back as exactly that assignment |
| Api.EnvFallbackOf | api_server.py:30 | the fallback leaves the environment alone unless the API key is unset or empty and the file exists |
| Api.EnvAfter | api_server.py:31-38 | the assignments never remove a variable, every new variable is assigned in the file, and the only errors are ValueError and OSError |
| Api.Universal | api_server.py:31-32 | text-mode reading leaves no carriage return and changes nothing in text without one |
| Api.CarriageReturnEndsLine | api_server.py:31-32 | a lone carriage return ends a line as a newline does |
| Api.LoadEnvFallback | api_server.py:30-38 | the fallback runs the line loop over the file read with universal newlines, only when the API key is unset or empty and the file exists |
| Api.ApplyEnvLines | api_server.py:31-38 | the line loop with ParseEnvLine applies the assignments in file order, or raises at the first one os.environ rejects |
| Api.AssignLoop | api_server.py:31-38 | the loop over the lines, for any line reader, equals EnvAfter and stops at the first rejected assignment |
| Api.EnvErrorPersists | api_server.py:38 | once an assignment is rejected, that error is the result of the whole loop |
| Api.EnvFailsIff | api_server.py:31-38 | the fallback raises exactly when some line assigns an empty name or a NUL character |
| Api.EnvErrorIsFirstRejection | api_server.py:31-38 | a failing fallback raises what the first rejected line raises: ValueError when its name or value holds a NUL character, otherwise (an empty name) OSError |
| Api.NulValueRejected | api_server.py:33-38 | a line `key=value` whose value holds a NUL character makes the fallback raise ValueError |
| Api.EmptyKeyRejected | api_server.py:35-38 | a line "=value" makes the fallback raise OSError, the error of setenv(3) for an empty name, when the value is non-empty, holds no NUL, has no trailing whitespace and neither starts nor ends with a quote (so that the line reads back as that assignment); Api.EnvErrorIsFirstRejection covers every line |
| Api.EmptyKeyLine | api_server.py:33-37 | a line that starts with '=' and ends in no space or quote assigns its rest to the empty name |
| Api.LastAssignmentWins | api_server.py:31-38 | when no assignment is rejected, a variable ends with the value of its last assignment in the file, and a variable not assigned keeps whatever it had |
| Api.DebugViewMembers | api_server.py:143-147 | exactly the variables named with a listed prefix are shown; a sensitive one is shown as "***" and every other one verbatim |
| Api.NoSecretShown | api_server.py:143-145 | a variable whose lowercased name holds key, secret or token is only ever shown as "***" |
| Api.DebugView | api_server.py:143-147 | no more entries than variables; every entry has a listed prefix, and a sensitive one shows only "***" |
| Api.EventsMembers | api_server.py:484-489 | the snow (rain) events are exactly the periods whose amount is present, truthy and not "—" |
| Api.Events | api_server.py:484-489 | no more events than periods, and every event is one of the periods (which periods qualify is stated by Api.EventsMembers) |
| Api.AppendAll | api_server.py:565-587 | the append loop builds one value per element, in order, and the first error raised ends it |
| Api.MapAllErrorPersists | api_server.py:565-587 | an error raised for an early element is the error of the whole loop |
| Api.MapAllShape | api_server.py:565-587 | the loop succeeds exactly when every element's row does, and then the k-th result is the k-th element's row |
| Api.MapBothShape | api_server.py:565-587 | two loops in a row succeed exactly when both do, and their results are concatenated |
| Api.PrecipitationRows | api_server.py:565-589 | the precipitation table is the snow rows then the rain rows, stably sorted by key; when building a row raises, the method returns exactly that error |
| Api.Insert | api_server.py:589 | inserting adds the row and nothing else |
| Api.SortByKey | api_server.py:589 | the sort is a permutation |
| Api.WithKeyAppend | api_server.py:589 | the rows with a given key in two concatenated lists are those of the first list followed by those of the second |
| Api.InsertSorted | api_server.py:589 | inserting into a sorted list keeps it sorted |
| Api.InsertWithKey | api_server.py:589 | insertion places the new row after every earlier row with the same key |
| Api.SortByKeyProps | api_server.py:589 | the sort returns a sorted permutation that keeps the order of rows with equal keys |
| Api.SameDateOrder | api_server.py:577-589 | for one date, keys with indices below 1000 order as the indices do |
| Api.PrecipitationFails | api_server.py:565-587 | building the table fails exactly when some event's row fails |
| Api.PrecipitationShape | api_server.py:562-587 | before sorting, the table is one row per snow event, then one row per rain event |
| Api.SortKey | api_server.py:577 | the sort key fails exactly when period_index is present and not an integer; otherwise it is the date, a dash, and then period_index (0 when absent) as a decimal that reads back as that index, zero-padded to three characters with the sign counted and no other leading zero |
| Text.Format03dPadded | api_server.py:577 | `f"{i:03d}"` reads back as i, is at least three characters long with a minus sign counted, and has a leading zero only where the width needs it |
| Api.SortKeyOrder | api_server.py:577 | for two periods of one date whose period_index (0 when absent) lies in 0..999, both keys exist and they order as the indices, so the sort at line 589 puts same-day rows in period order |
| Api.RowOf | api_server.py:566-577 | a row carries its event's kind, its amount with the unit and its sort key, and fails exactly when the sort key does |
| Api.Cell | api_server.py:651-657 | a snow or rain cell is "—" when the value is absent or "—", and the text with the unit otherwise; a value that is not a string raises |
| Api.HourlyRowOf | api_server.py:651-672 | a row fails exactly when its snow or rain value is no string, and otherwise carries the snow and rain cells |
| Api.HourlyTable | api_server.py:650-674 | at most forty rows, one per period in order, and the table fails exactly when one of those periods has a cell that raises |
| Api.HourlyRows | api_server.py:650-672 | the row loop builds the hourly table of the first forty periods |
| Api.LatestIndex | api_server.py:458-460 | the stable newest-first sort picks a file with the greatest mtime and no earlier such file |
| Api.TruncDiv | api_server.py:466-472 | int() of a quotient truncates toward zero |
| Api.DigitRunDigits | api_server.py:466-473 | the digit run of a text is a prefix of digits |
| Api.ReadDecimal | api_server.py:470-473 | a decimal number followed by a non-digit reads back as that number |
| Api.ReadAgeOf | api_server.py:470-473 | an age text that starts with a number reads back through that number |
| Api.ReadRestHours | api_server.py:472-473 | an hours-and-minutes text reads back as 60 times the hours plus the minutes |
| Api.ReadMinutes | api_server.py:470-471 | the text for 1 to 59 minutes reads back as those minutes |
| Api.ReadHours | api_server.py:472-473 | the text for an age of an hour or more reads back as the age in minutes |
| Api.ReadAgeText | api_server.py:466-473 | every age text reads back as its minutes, and every age under one minute as 0 |
| Api.AgeTextInjective | api_server.py:466-473 | ages of a minute or more have distinct texts |
| Api.AgeText | api_server.py:466-473 | every age text ends with " ago" |
| Api.CacheTimestampInfo | api_server.py:448-476 | the text is empty exactly when there is no cached file, and otherwise reads back as the newest file's age in whole minutes, 0 under a minute, the age being `now` minus the file's mtime on the local wall clock |
| Api.NoMatchInside | api_server.py:434-435 | a piece of a stretch where "</div>" does not start holds no "</div>" |
| Api.ForecastBody | api_server.py:432-438 | without the forecast div, or when the first "</div>" after the opening tag does not come after its end, the content is returned whole; otherwise the result is the text between the tag's end and that "</div>" with only whitespace removed, at both ends only, none left at either end, and it holds no "</div>" |
| Api.CutBody | api_server.py:434-436 | the stripped text between the opening tag's end and the first following "</div>" is that text with its edge whitespace removed, and holds no "</div>" |
| Text.StripEdges | api_server.py:436 | str.strip() removes characters of the class only, at the two ends only, and leaves none at either end |
| Api.ForecastBodyOfPage | api_server.py:432-438 | a page `prefix + <div class="forecast"> + body + </div> + rest`, with no '<' in prefix, a body without edge whitespace and no earlier "</div>", gives the body back, and an empty body gives the whole page |
| Api.ForecastBodyAt | api_server.py:432-438 | a body without whitespace at either end, found between the opening tag's end and the first closing tag is the result, and an empty one gives the content |
| Api.RecentCachedForecast | api_server.py:413-438 | a result exists exactly when there is a file and the newest is younger than 3600 seconds by the local wall clock (`now` minus its mtime), and it is that file's forecast body |
| Endpoints.LoadJson | api_server.py:63-73 | a missing file gives 404 and a malformed one 500, and only then; a success is the file's document |
| Endpoints.LoadBundle | api_server.py:308-315 | the four documents load exactly when each file does; otherwise the first failing file's error is raised |
| Endpoints.BundleErrors | api_server.py:308-315 | a bundle error is always a 404 or a 500 |
| Endpoints.BundleReadsOnlyNames | api_server.py:308-315 | a bundle depends only on its four files |
| Endpoints.ForecastByElevation | api_server.py:299-328 | 400 exactly for names outside top, mid and bot; the answer names the elevation; top and bot give their data or 404 |
| Endpoints.OnlyMidFallsBack | api_server.py:316-328 | only mid reads the legacy files; any other elevation depends on its own four files |
| Endpoints.ElevationFilesFirst | api_server.py:306-315 | when an elevation's own files load, they are served |
| Endpoints.MidServedIff | api_server.py:306-324 | mid is served exactly when its own files or the legacy files load |
| Endpoints.FileByElevation | api_server.py:330-360 | 400 exactly for unknown names; a valid elevation whose own file loads gets that file's document; when it fails, mid gets exactly what loading the legacy file gives and top and bot get 404; a success is the elevation's own file, or the legacy file for mid |
| Endpoints.FileEndpointsAgree | api_server.py:330-360 | when an elevation's four files load, the hourly and dynamic endpoints return the same documents as the elevation endpoint |
| Endpoints.GetAllElevations | api_server.py:177-220 | the all-elevations loop yields exactly the reference result |
| Endpoints.EntryMatchesEndpoint | api_server.py:182-202 | an elevation is stored with the same documents its own endpoint serves, and exactly when that endpoint serves it |
| Endpoints.EntryMissingIff | api_server.py:182-202 | an elevation is missing exactly when its endpoint fails |
| Endpoints.EntriesKeys | api_server.py:182-202 | the keys are the served elevations in order, each with its entry |
| Endpoints.EntriesEmptyIff | api_server.py:182-206 | no entry is stored exactly when every elevation's entry is missing |
| Endpoints.AllElevations404Iff | api_server.py:204-220 | the endpoint fails only with 404, and exactly when no elevation's endpoint would serve it; elevations_available lists the served elevations in order |

## Left out

- Browser driving is reduced to the values it yields. This covers page loads, waits,
  reloads, clicks, cookies and `storage_state`. For `scrape_elevation` the order of the
  loads, content reads, refresh and HTML dumps is kept as a list of steps
  (`Scrape.ScrapeSteps`); after a navigation error that list is empty, because the
  observations do not say which of the two loads raised. The navigation test loop of `main`
  (`src/snowscrape/scraper.py:675-681`) is not modelled. Its `page.goto` is not inside a
  `try`, so a navigation error there ends `main` before the elevation loop starts; the
  model's elevation loop assumes that test loop completed.
- HTML and JSON parsing libraries are replaced by a document tree and by "absent,
  malformed or parsed" file contents. This includes BeautifulSoup, lxml,
  `pd.read_html` and `json.load`. Of `extract_tables`, only the number of tables is kept.
- JSON values are strings, integers and null. Lists, objects, booleans and floats are not
  modelled.
- `extract_hourly_forecast_data` (`src/snowscrape/scraper.py:295-331`) is modelled only
  as its outcome:
  - no hourly button;
  - the extraction of the expanded page;
  - an error, which gives no records.
- The content of the final fallback scrape of `main` (`src/snowscrape/scraper.py:756-777`)
  is not modelled. The result carries only whether it runs.
- File output is I/O and is not modelled. This covers the writes of `tidy_and_export`
  (the raw tables, the CSV and JSON exports, the meta manifest) and `combined_meta.json`; of the HTML dumps only when they happen is
  modelled. The model selects which columns the snow summary keeps and what
  the combined summary holds, but not the writing.
- `guess_snow_columns` uses a regular expression. The model replaces it with an explicit
  word test, where a word character is an ASCII letter, digit or `_`. Python's Unicode
  word boundaries are not modelled.
- Lowercasing is ASCII only, so positions in the lowercased response are positions in
  the response.
- Python's `int()` also accepts `_` between digits and non-ASCII digits. The model does
  not.
- Clock values are integers: a file's `mtime` and the `now` passed in are local
  wall-clock readings in whole seconds. The source compares the naive local datetimes
  `datetime.fromtimestamp(st_mtime)` and `datetime.now()`, which carry fractions of a
  second; those fractions are not modelled.
- Api.RecentCachedForecast, Api.CacheTimestampInfo: daylight-saving offset changes are
  not modelled. The age is `now - mtime` on the local wall clock, as the source computes
  it, and the model does not relate it to real elapsed time, which differs by the offset
  change (an hour) when one falls between the two readings.
- Cache-file globbing and the reading of a file's text are replaced by a list of the
  cached files.
- Other parts of the API server are not modelled:
  - the OpenAI calls and `get_cached_or_generate_forecast` (`api_server.py:363-399`);
  - the prompt text;
  - the HTML and CSS template text of the forecast page;
  - the `/meta`, `/forecast/dynamic` and `/forecast/hourly` endpoints, which are single
    `load_json_file` calls;
  - FastAPI routing and static mounting.
- `print` and logging are not modelled.
- Columns.SnowFrames: its own contract states only the frame count. What each frame
  holds is stated by `Columns.SelectSnowFrames` together with `Columns.KeepColumnsProps`.
- Responses.AlternativeSplit, Responses.AlternativeSplitFixed: their own contracts state
  only that `raw` is the input. The section contents are stated by
  `Responses.SplitAtSections` for every pair of marker positions, by
  `Responses.AlternativeSections` at the as-written positions, and by
  `Responses.FixedKeepsHtmlMarker` for the corrected ones.
- The `.env` file is taken as its decoded text; a decoding error of `open()` is not
  modelled.
- Api.Rejection follows CPython on POSIX systems, where an empty variable name reaches
  setenv(3) and raises OSError. On Windows, `os.putenv` raises ValueError for it instead.
- Endpoints.LoadJson, Endpoints.FileByElevation, Endpoints.ForecastByElevation,
  Endpoints.GetAllElevations: a file is absent, malformed (json.load raises
  `JSONDecodeError`) or parsed. Other errors while reading an existing file are not
  modelled. These are a `UnicodeDecodeError` or an unreadable path. `load_json_file`
  (`api_server.py:63-73`) does not turn them into an `HTTPException`, so they escape the
  `except HTTPException` fallbacks of the endpoints. They never reach the legacy or
  `combined_meta` alternatives.

## Findings

| source | as written | input that shows it | evidently intended | confidence | as-written member | corrected member |
|---|---|---|---|---|---|---|
| src/snowscrape/forecast_generator.py:314-320 | the markdown marker "# " counts whenever it is found after html_start, including inside the html marker "## html" itself | "## HTML\nSnow" (it reaches alternative_parse because the line split leaves the markdown section empty): html_start is 0, "# " is found at 1, so html is "#" and markdown is "# HTML\nSnow" | a markdown marker counts only when it starts after the whole html marker, so the html output begins with the marker that was found | not executed | Responses.HashMarkerCutsHtmlHeader | Responses.FixedKeepsHtmlMarker |

The program's parser is modelled as written: `Responses.ParseOf` and
`Responses.ParseResponse` fall back to the as-written split, and
`Responses.ParseCutsHtmlHeader` shows that the example reaches the parser's output.
The corrected parser is `Responses.ParseOfFixed`, with `Responses.ParseResponseFixed` and
`Responses.AlternativeParseFixed` as its methods.
