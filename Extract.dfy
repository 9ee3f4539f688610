/** The structured extractor of the forecast page: it turns the interactive
    forecast table (a day-header row whose cells span several time slots, a
    time-label row and one row per weather attribute) into one record per time slot. */
module Extract {
  import opened Common
  import opened Text
  import opened Markup

  /** One calendar day of the header row and the number of time slots it spans. */
  datatype DateHeader = DateHeader(date: string, dayName: string, dayNum: string, colspan: int)

  /** One forecast period. The calendar identity, the time label and the index are always
      present; every weather field is absent when its markup is missing. Values are kept
      verbatim, so the site's "—" for "no data" stays "—". */
  datatype Period = Period(
    date: string, dayName: string, dayNum: string, timePeriod: string, periodIndex: nat,
    weatherIcon: Option<string>, weatherIconSrc: Option<string>, weatherPhrase: Option<string>,
    windSpeed: Option<string>, windDirection: Option<string>, windSpeedDisplay: Option<string>,
    snowAmount: Option<string>, rainAmount: Option<string>,
    temperatureMax: Option<string>, temperatureMin: Option<string>, temperatureChill: Option<string>,
    humidity: Option<string>, freezingLevel: Option<string>)

  /** int() rejected the text of a day cell's colspan attribute (Python raises ValueError). */
  datatype ExtractError = BadColspan(text: string)

  const TableQuery: Query := ByClass("table", "forecast-table__table")
  const DaysRow: Query := ByAttr("tr", "data-row", "days")
  const DayCell: Query := ByClass("td", "forecast-table-days__cell")
  const TimeRow: Query := ByAttr("tr", "data-row", "time")

  // ---------------------------------------------------------------------------
  // Python's int() on an attribute text
  // ---------------------------------------------------------------------------

  predicate AllDigits(s: string) {
    forall k :: 0 <= k < |s| ==> IsDigit(s[k])
  }

  /** Python's int(s) for a str: surrounding whitespace, an optional sign, decimal digits. */
  function ParseInt(s: string): Option<int> {
    ParseSigned(Strip(s))
  }

  /** An optional sign and at least one decimal digit, nothing else. */
  function ParseSigned(t: string): Option<int> {
    if t == [] then None
    else
      var ds := if t[0] == '-' || t[0] == '+' then t[1..] else t;
      if ds != [] && AllDigits(ds) then
        Some(if t[0] == '-' then -(DigitsValue(ds) as int) else DigitsValue(ds) as int)
      else None
  }

  lemma ParseIntStr(i: int)
    ensures ParseInt(IntStr(i)) == Some(i)
  {
    var s := IntStr(i);
    var d := Decimal(if i < 0 then -i else i);
    assert s[|s| - 1] == d[|d| - 1];
    assert !IsPySpace(s[0]) && !IsPySpace(s[|s| - 1]);
    StripNothing(s, IsPySpace);
    ParseSignedStr(i);
  }

  lemma ParseSignedStr(i: int)
    ensures ParseSigned(IntStr(i)) == Some(i)
  {
    var n := if i < 0 then -i else i;
    var d := Decimal(n);
    DecimalValue(n);
    var s := IntStr(i);
    if i < 0 {
      assert s[1..] == d;
    } else {
      assert IsDigit(s[0]);
    }
  }

  // ---------------------------------------------------------------------------
  // The day-header row
  // ---------------------------------------------------------------------------

  /** The colspan of a day cell: 1 when the attribute is missing. */
  function Colspan(cell: Node): Result<int, ExtractError> {
    if cell.Element? && "colspan" in cell.attrs then
      match ParseInt(cell.attrs["colspan"])
      case Some(v) => Ok(v)
      case None => Err(BadColspan(cell.attrs["colspan"]))
    else Ok(1)
  }

  /** A day cell yields a header only when it holds both the name div and the date div;
      only then is its colspan read. */
  function HeaderOf(cell: Node): Result<Option<DateHeader>, ExtractError> {
    var name := FindFirst(cell, ByClass("div", "forecast-table-days__name"));
    var num := FindFirst(cell, ByClass("div", "forecast-table-days__date"));
    if name.Some? && num.Some? then
      match Colspan(cell)
      case Ok(c) => Ok(Some(DateHeader(AttrOr(cell, "data-date", ""), GetText(name.value), GetText(num.value), c)))
      case Err(e) => Err(e)
    else Ok(None)
  }

  /** What `part` makes of each cell, in order, skipping the cells it yields nothing for;
      the first error aborts the whole parse. */
  function Gather<T>(cells: seq<Node>, part: Node -> Result<Option<T>, ExtractError>): Result<seq<T>, ExtractError> {
    if cells == [] then Ok([])
    else
      match Gather(cells[..|cells| - 1], part)
      case Err(e) => Err(e)
      case Ok(found) =>
        match part(cells[|cells| - 1])
        case Err(e) => Err(e)
        case Ok(h) => Ok(found + if h.Some? then [h.value] else [])
  }

  /** The headers of the day cells in order; the first bad colspan aborts the whole parse. */
  function DateHeaders(cells: seq<Node>): Result<seq<DateHeader>, ExtractError> {
    Gather(cells, HeaderOf)
  }

  /** An error among the first `k` cells is the error of the whole parse. */
  lemma {:induction false} GatherErrorPersists<T>(cells: seq<Node>, part: Node -> Result<Option<T>, ExtractError>, k: nat)
    requires k <= |cells| && Gather(cells[..k], part).Err?
    ensures Gather(cells, part) == Gather(cells[..k], part)
    decreases |cells| - k
  {
    if k < |cells| {
      assert cells[..k + 1][..k] == cells[..k];
      GatherErrorPersists(cells, part, k + 1);
    } else {
      assert cells[..k] == cells;
    }
  }

  /** The loop over the cells: what `part` yields is appended, the first error returned. */
  method GatherCells<T>(cells: seq<Node>, part: Node -> Result<Option<T>, ExtractError>) returns (r: Result<seq<T>, ExtractError>)
    ensures r == Gather(cells, part)
  {
    var found: seq<T> := [];
    var k := 0;
    while k < |cells|
      invariant 0 <= k <= |cells|
      invariant Gather(cells[..k], part) == Ok(found)
    {
      assert cells[..k + 1][..k] == cells[..k];
      var h := part(cells[k]);
      if h.Err? {
        GatherErrorPersists(cells, part, k + 1);
        return Err(h.error);
      }
      found := found + if h.value.Some? then [h.value.value] else [];
      k := k + 1;
    }
    assert cells[..k] == cells;
    return Ok(found);
  }

  method ParseDateHeaders(cells: seq<Node>) returns (r: Result<seq<DateHeader>, ExtractError>)
    ensures r == DateHeaders(cells)
  {
    r := GatherCells(cells, HeaderOf);
  }

  // ---------------------------------------------------------------------------
  // The time-label row
  // ---------------------------------------------------------------------------

  /** The label of one time cell: the text of a span of class "en", else of the first span
      (both even when empty), else the cell's own text when it is not empty. */
  function TimeLabelOf(cell: Node): Option<string> {
    match FindFirst(cell, ByClass("span", "en"))
    case Some(en) => Some(GetText(en))
    case None =>
      match FindFirst(cell, ByTag("span"))
      case Some(sp) => Some(GetText(sp))
      case None => if GetText(cell) != "" then Some(GetText(cell)) else None
  }

  /** The labels `labelOf` gives the cells, in order; a cell without a label is skipped. */
  function Labels(cells: seq<Node>, labelOf: Node -> Option<string>): seq<string> {
    if cells == [] then []
    else
      var l := labelOf(cells[|cells| - 1]);
      Labels(cells[..|cells| - 1], labelOf) + if l.Some? then [l.value] else []
  }

  /** The labels of the time cells in order; a cell without a label is skipped, so the
      labels after it move one position to the left. */
  function TimeLabels(cells: seq<Node>): seq<string> { Labels(cells, TimeLabelOf) }

  /** The loop over the cells: each label found is appended. */
  method CollectLabels(cells: seq<Node>, labelOf: Node -> Option<string>) returns (labels: seq<string>)
    ensures labels == Labels(cells, labelOf)
  {
    labels := [];
    var k := 0;
    while k < |cells|
      invariant 0 <= k <= |cells|
      invariant Labels(cells[..k], labelOf) == labels
    {
      assert cells[..k + 1][..k] == cells[..k];
      var l := labelOf(cells[k]);
      if l.Some? {
        labels := labels + [l.value];
      }
      k := k + 1;
    }
    assert cells[..k] == cells;
  }

  /** Labelling a concatenation labels each part in turn. */
  lemma {:induction false} LabelsAppend(a: seq<Node>, b: seq<Node>, labelOf: Node -> Option<string>)
    ensures Labels(a + b, labelOf) == Labels(a, labelOf) + Labels(b, labelOf)
    decreases |b|
  {
    if b == [] {
      assert a + b == a;
    } else {
      var b' := b[..|b| - 1];
      assert (a + b)[..|a + b| - 1] == a + b';
      LabelsAppend(a, b', labelOf);
    }
  }

  /** A time cell with no span and no text yields no label: the labels of the cells after
      it follow those before it directly, one position further left. */
  lemma UnlabelledCellSkipped(a: seq<Node>, c: Node, b: seq<Node>)
    requires FindFirst(c, ByClass("span", "en")).None? && FindFirst(c, ByTag("span")).None?
    requires GetText(c) == ""
    ensures TimeLabels(a + [c] + b) == TimeLabels(a) + TimeLabels(b)
  {
    assert TimeLabelOf(c) == None;
    LabelsNone([c], TimeLabelOf);
    LabelsAppend(a + [c], b, TimeLabelOf);
    LabelsAppend(a, [c], TimeLabelOf);
  }

  lemma LabelsNone(cs: seq<Node>, labelOf: Node -> Option<string>)
    requires |cs| == 1 && labelOf(cs[0]).None?
    ensures Labels(cs, labelOf) == []
  {
    assert cs[..0] == [];
  }

  method ParseTimeLabels(cells: seq<Node>) returns (labels: seq<string>)
    ensures labels == TimeLabels(cells)
  {
    labels := CollectLabels(cells, TimeLabelOf);
  }

  // ---------------------------------------------------------------------------
  // The attribute rows
  // ---------------------------------------------------------------------------

  /** The cells of the row whose data-row attribute is `row`, if the table has one. */
  function RowCells(t: Node, row: string): Option<seq<Node>> {
    match FindFirst(t, ByAttr("tr", "data-row", row))
    case None => None
    case Some(r) => Some(FindAll(r, ByTag("td")))
  }

  /** The cell of row `row` for slot `i`: absent when the row is missing or too short. */
  function CellAt(t: Node, row: string, i: nat): (r: Option<Node>)
    ensures r.None? <==> RowCells(t, row).None? || i >= |RowCells(t, row).value|
  {
    match RowCells(t, row)
    case None => None
    case Some(cs) => if i < |cs| then Some(cs[i]) else None
  }

  function Within(n: Option<Node>, q: Query): Option<Node> {
    if n.None? then None else FindFirst(n.value, q)
  }

  function TextOf(n: Option<Node>): Option<string> {
    if n.None? then None else Some(GetText(n.value))
  }

  function AttrOf(n: Option<Node>, name: string): Option<string> {
    if n.None? then None else Some(AttrOr(n.value, name, ""))
  }

  /** Snow or rain: the amount div's data-value when not empty, else the text of its value
      span, else the div's own text; absent when the cell has no amount div. */
  function Amount(cell: Option<Node>, box: string, valueSpan: string): Option<string> {
    match Within(cell, ByClass("div", box))
    case None => None
    case Some(d) =>
      var v := AttrOr(d, "data-value", "");
      if v != "" then Some(v)
      else
        match FindFirst(d, ByClass("span", valueSpan))
        case Some(sp) => Some(GetText(sp))
        case None => Some(GetText(d))
  }

  /** A temperature: the cell's data-value when not empty, else the cell's text. */
  function Temperature(cell: Option<Node>): Option<string> {
    if cell.None? then None
    else
      var v := AttrOr(cell.value, "data-value", "");
      Some(if v != "" then v else GetText(cell.value))
  }

  /** The freezing level: `data-value or text` of the level-value div. */
  function FreezingLevel(cell: Option<Node>): Option<string> {
    match Within(cell, ByClass("div", "level-value"))
    case None => None
    case Some(d) =>
      var v := AttrOr(d, "data-value", "");
      Some(if v != "" then v else GetText(d))
  }

  /** The record for time slot `i`, labelled `slotLabel`, under day header `h`. */
  function PeriodAt(t: Node, h: DateHeader, slotLabel: string, i: nat): Period {
    var icon := Within(CellAt(t, "weather", i), ByClass("img", "weather-icon"));
    var wind := Within(CellAt(t, "wind", i), ByClass("div", "wind-icon"));
    Period(h.date, h.dayName, h.dayNum, slotLabel, i,
      AttrOf(icon, "alt"), AttrOf(icon, "src"),
      TextOf(Within(CellAt(t, "phrases", i), ByClass("span", "forecast-table__phrase"))),
      AttrOf(wind, "data-speed"),
      TextOf(Within(wind, ByClass("div", "wind-icon__tooltip"))),
      TextOf(Within(wind, ByClass("text", "wind-icon__val"))),
      Amount(CellAt(t, "snow", i), "snow-amount", "snow-amount__value"),
      Amount(CellAt(t, "rain", i), "rain-amount", "rain-amount__value"),
      Temperature(CellAt(t, "temperature-max", i)),
      Temperature(CellAt(t, "temperature-min", i)),
      Temperature(CellAt(t, "temperature-chill", i)),
      TextOf(Within(CellAt(t, "humidity", i), ByTag("span"))),
      FreezingLevel(CellAt(t, "freezing-level", i)))
  }

  // ---------------------------------------------------------------------------
  // Column-span expansion
  // ---------------------------------------------------------------------------

  /** How many slots `range(colspan)` yields for a header. */
  function Span(h: DateHeader): nat {
    if h.colspan > 0 then h.colspan else 0
  }

  /** The first slot of header `j`'s block: the slots the headers before it span. */
  function Start(hs: seq<DateHeader>, j: nat): nat
    requires j <= |hs|
  {
    if j == 0 then 0 else Start(hs, j - 1) + Span(hs[j - 1])
  }

  /** The number of slots the headers span together. */
  function SpanSum(hs: seq<DateHeader>): nat { Start(hs, |hs|) }

  lemma {:induction false} StartMono(hs: seq<DateHeader>, a: nat, b: nat)
    requires a <= b <= |hs|
    ensures Start(hs, a) <= Start(hs, b)
    decreases b - a
  {
    if a < b {
      StartMono(hs, a, b - 1);
    }
  }

  function Min(a: int, b: int): int { if a < b then a else b }

  /** The header whose block of slots contains slot `i`, searching from header `j` on. */
  function HeaderIndex(hs: seq<DateHeader>, i: nat, j: nat): (r: nat)
    requires j <= |hs| && Start(hs, j) <= i < SpanSum(hs)
    ensures j <= r < |hs| && Start(hs, r) <= i < Start(hs, r + 1)
    decreases |hs| - j
  {
    if i < Start(hs, j + 1) then j else HeaderIndex(hs, i, j + 1)
  }

  /** Slot blocks do not overlap: slot `i` lies in the block of header `j` only. */
  lemma HeaderIndexUnique(hs: seq<DateHeader>, i: nat, j: nat)
    requires j < |hs| && Start(hs, j) <= i < Start(hs, j + 1)
    ensures i < SpanSum(hs) && HeaderIndex(hs, i, 0) == j
  {
    StartMono(hs, j + 1, |hs|);
    var r := HeaderIndex(hs, i, 0);
    if r < j {
      StartMono(hs, r + 1, j);
    } else if r > j {
      StartMono(hs, j + 1, r);
    }
  }

  function SlotCount(hs: seq<DateHeader>, times: seq<string>): nat {
    Min(SpanSum(hs), |times|)
  }

  /** The expansion for any way `make` of building one record from the page `ctx`, the day
      header, the time label and the slot index: one record per slot, as many as the headers
      span but never more than there are time labels, slot `i` under the header whose block
      holds `i`. */
  function ExpandWith<C, P>(ctx: C, hs: seq<DateHeader>, times: seq<string>, make: (C, DateHeader, string, nat) -> P): (r: seq<P>)
    ensures |r| == SlotCount(hs, times)
  {
    seq(SlotCount(hs, times), i requires 0 <= i < SlotCount(hs, times) => make(ctx, hs[HeaderIndex(hs, i, 0)], times[i], i))
  }

  /** The expanded records of the table `t`, numbered 0..N-1 and labelled with the time row
      in order. */
  function Expand(t: Node, hs: seq<DateHeader>, times: seq<string>): (r: seq<Period>)
    ensures |r| == Min(SpanSum(hs), |times|)
    ensures forall i :: 0 <= i < |r| ==> r[i].periodIndex == i && r[i].timePeriod == times[i]
  {
    ExpandNumbering(t, hs, times);
    ExpandWith(t, hs, times, PeriodAt)
  }

  lemma ExpandNumbering(t: Node, hs: seq<DateHeader>, times: seq<string>)
    ensures var r := ExpandWith(t, hs, times, PeriodAt);
            forall i :: 0 <= i < |r| ==> r[i].periodIndex == i && r[i].timePeriod == times[i]
  {
    var r := ExpandWith(t, hs, times, PeriodAt);
    forall i | 0 <= i < |r| ensures r[i].periodIndex == i && r[i].timePeriod == times[i] {
      PeriodAtHeader(t, hs[HeaderIndex(hs, i, 0)], times[i], i);
    }
  }

  /** Appending the record of the next slot, which lies in the block of header `j`,
      extends a correct prefix of the expansion by one. */
  lemma ExpandStep<C, P>(ctx: C, hs: seq<DateHeader>, times: seq<string>, make: (C, DateHeader, string, nat) -> P, out: seq<P>, j: nat)
    requires j < |hs| && Start(hs, j) <= |out| < Start(hs, j) + Span(hs[j]) && |out| < |times|
    requires |out| < SlotCount(hs, times) && out == ExpandWith(ctx, hs, times, make)[..|out|]
    ensures out + [make(ctx, hs[j], times[|out|], |out|)] == ExpandWith(ctx, hs, times, make)[..|out| + 1]
  {
    HeaderIndexUnique(hs, |out|, j);
    var all := ExpandWith(ctx, hs, times, make);
    assert all[|out|] == make(ctx, hs[j], times[|out|], |out|);
    TakeOneMore(all, |out|);
  }

  lemma TakeOneMore<T>(s: seq<T>, n: nat)
    requires n < |s|
    ensures s[..n + 1] == s[..n] + [s[n]]
  {
  }

  /** The nested loop over headers and their slots, with the global slot counter that stops
      producing records once the time labels run out. */
  method ExpandLoop<C, P>(ctx: C, hs: seq<DateHeader>, times: seq<string>, make: (C, DateHeader, string, nat) -> P) returns (out: seq<P>)
    ensures out == ExpandWith(ctx, hs, times, make)
  {
    ghost var all := ExpandWith(ctx, hs, times, make);
    out := [];
    var idx := 0;
    var j := 0;
    while j < |hs|
      invariant 0 <= j <= |hs|
      invariant idx == Min(Start(hs, j), |times|) && idx <= |all|
      invariant |out| == idx && out == all[..idx]
    {
      StartMono(hs, j + 1, |hs|);
      var p := 0;
      while p < hs[j].colspan
        invariant 0 <= p <= Span(hs[j])
        invariant idx == Min(Start(hs, j) + p, |times|) && idx <= |all|
        invariant |out| == idx && out == all[..idx]
      {
        if idx < |times| {
          ExpandStep(ctx, hs, times, make, out, j);
          out := out + [make(ctx, hs[j], times[idx], idx)];
          idx := idx + 1;
        }
        p := p + 1;
      }
      j := j + 1;
    }
    assert out == all;
  }

  method ExpandPeriods(t: Node, hs: seq<DateHeader>, times: seq<string>) returns (out: seq<Period>)
    ensures out == Expand(t, hs, times)
  {
    out := ExpandLoop(t, hs, times, PeriodAt);
  }

  // ---------------------------------------------------------------------------
  // The whole extractor
  // ---------------------------------------------------------------------------

  /** What the extractor yields for a parsed page: no table gives no records; a missing
      day row or time row gives no headers or no labels. */
  function ExtractionOf(doc: Node): Result<seq<Period>, ExtractError> {
    match FindFirst(doc, TableQuery)
    case None => Ok([])
    case Some(t) =>
      var headers := match FindFirst(t, DaysRow)
                     case None => Ok([])
                     case Some(row) => DateHeaders(FindAll(row, DayCell));
      match headers
      case Err(e) => Err(e)
      case Ok(hs) =>
        var times := match FindFirst(t, TimeRow)
                     case None => []
                     case Some(row) => TimeLabels(FindAll(row, ByTag("td")));
        Ok(Expand(t, hs, times))
  }

  method ExtractDynamicForecast(doc: Node) returns (r: Result<seq<Period>, ExtractError>)
    ensures r == ExtractionOf(doc)
  {
    var table := FindFirst(doc, TableQuery);
    if table.None? {
      return Ok([]);
    }
    var t := table.value;
    var headers: seq<DateHeader> := [];
    var dateRow := FindFirst(t, DaysRow);
    if dateRow.Some? {
      var parsed := ParseDateHeaders(FindAll(dateRow.value, DayCell));
      if parsed.Err? {
        return Err(parsed.error);
      }
      headers := parsed.value;
    }
    var times: seq<string> := [];
    var timeRow := FindFirst(t, TimeRow);
    if timeRow.Some? {
      times := ParseTimeLabels(FindAll(timeRow.value, ByTag("td")));
    }
    var periods := ExpandPeriods(t, headers, times);
    return Ok(periods);
  }

  // ---------------------------------------------------------------------------
  // Properties of the expansion
  // ---------------------------------------------------------------------------

  /** Record `i` is built from slot `i`'s label under the header whose block holds `i`. */
  lemma ExpandAt(t: Node, hs: seq<DateHeader>, times: seq<string>, i: nat)
    requires i < |Expand(t, hs, times)|
    ensures i < SpanSum(hs) && Expand(t, hs, times)[i] == PeriodAt(t, hs[HeaderIndex(hs, i, 0)], times[i], i)
  {
  }

  /** A record takes its calendar identity from its header, its label and index from its slot. */
  lemma PeriodAtHeader(t: Node, h: DateHeader, slotLabel: string, i: nat)
    ensures var p := PeriodAt(t, h, slotLabel, i);
            p.date == h.date && p.dayName == h.dayName && p.dayNum == h.dayNum &&
            p.timePeriod == slotLabel && p.periodIndex == i
  {
  }

  /** The records of one day header form one consecutive block: every slot in the block of
      header `j` (cut short by the number of time labels) carries that header's date,
      day name and day number. */
  lemma HeaderBlock(t: Node, hs: seq<DateHeader>, times: seq<string>, j: nat, i: nat)
    requires j < |hs|
    requires Start(hs, j) <= i < Start(hs, j) + Span(hs[j]) && i < |times|
    ensures i < |Expand(t, hs, times)|
    ensures Expand(t, hs, times)[i].date == hs[j].date
    ensures Expand(t, hs, times)[i].dayName == hs[j].dayName
    ensures Expand(t, hs, times)[i].dayNum == hs[j].dayNum
  {
    HeaderIndexUnique(hs, i, j);
    ExpandAt(t, hs, times, i);
    PeriodAtHeader(t, hs[j], times[i], i);
  }

  /** Every record lies in the block of some header: no record is made up. */
  lemma RecordHasHeader(t: Node, hs: seq<DateHeader>, times: seq<string>, i: nat)
    requires i < |Expand(t, hs, times)|
    ensures exists j :: 0 <= j < |hs| && Start(hs, j) <= i < Start(hs, j) + Span(hs[j]) &&
                        Expand(t, hs, times)[i].date == hs[j].date
  {
    ExpandAt(t, hs, times, i);
    var j := HeaderIndex(hs, i, 0);
    PeriodAtHeader(t, hs[j], times[i], i);
  }

  /** Extra slots are dropped: when the labels run out inside the block of header `j`,
      the records stop there, and the last one carries the last label and header `j`'s
      date, so the later slots of that block and every later header yield nothing. */
  lemma Truncation(t: Node, hs: seq<DateHeader>, times: seq<string>, j: nat)
    requires j < |hs| && Start(hs, j) < |times| <= Start(hs, j) + Span(hs[j])
    ensures |Expand(t, hs, times)| == |times|
    ensures var last := Expand(t, hs, times)[|times| - 1];
            last.timePeriod == times[|times| - 1] && last.date == hs[j].date
  {
    StartMono(hs, j + 1, |hs|);
    HeaderBlock(t, hs, times, j, |times| - 1);
  }

  /** A temperature is read from cell `i` of its row and is absent exactly when the row is
      missing or has no cell `i`; present, it is the data-value when not empty, else the text. */
  lemma TemperatureField(t: Node, hs: seq<DateHeader>, times: seq<string>, i: nat)
    requires i < |Expand(t, hs, times)|
    ensures var p := Expand(t, hs, times)[i];
            var cells := RowCells(t, "temperature-max");
            (p.temperatureMax.None? <==> cells.None? || i >= |cells.value|) &&
            (p.temperatureMax.Some? ==>
               var v := AttrOr(cells.value[i], "data-value", "");
               p.temperatureMax.value == if v != "" then v else GetText(cells.value[i]))
  {
    ExpandAt(t, hs, times, i);
  }

  /** Snow amounts are copied verbatim: a non-empty data-value, "—" included, is the record's value. */
  lemma SnowVerbatim(t: Node, hs: seq<DateHeader>, times: seq<string>, i: nat, box: Node)
    requires i < |Expand(t, hs, times)|
    requires Within(CellAt(t, "snow", i), ByClass("div", "snow-amount")) == Some(box)
    requires AttrOr(box, "data-value", "") != ""
    ensures Expand(t, hs, times)[i].snowAmount == Some(AttrOr(box, "data-value", ""))
  {
    ExpandAt(t, hs, times, i);
  }
}
