/** The forecast generator's handling of the language model's answer: splitting the
    response into an HTML and a Markdown section, the marker-based fallback split, and the
    order in which the hourly forecast files are read. */
module Responses {
  import opened Common
  import opened Text

  /** The three outputs; `raw` is always the response as received. */
  datatype Forecasts = Forecasts(html: string, markdown: string, raw: string)

  // ---------------------------------------------------------------------------
  // parse_chatgpt_response: a line-by-line state machine
  // ---------------------------------------------------------------------------

  datatype Section = NoSection | HtmlSection | MarkdownSection

  /** The form of a line the header tests look at: lower-cased, then stripped. */
  function Normal(line: string): string { Strip(Lower(line)) }

  predicate IsHtmlHeader(line: string) {
    Contains(Normal(line), "html version") || Normal(line) == "## html"
  }

  predicate IsMarkdownHeader(line: string) {
    Contains(Normal(line), "markdown version") || Normal(line) == "## markdown"
  }

  /** How the state machine reads a line. */
  datatype LineKind = HtmlHeader | MarkdownHeader | Body

  /** The html test comes first, so a line that passes both tests is an html header. */
  function Kind(line: string): (k: LineKind)
    ensures k == HtmlHeader <==> IsHtmlHeader(line)
    ensures k == MarkdownHeader <==> !IsHtmlHeader(line) && IsMarkdownHeader(line)
  {
    if IsHtmlHeader(line) then HtmlHeader
    else if IsMarkdownHeader(line) then MarkdownHeader
    else Body
  }

  /** The section after reading a line of kind `k` in section `cur`. */
  function NextSection(cur: Section, k: LineKind): Section {
    match k
    case HtmlHeader => HtmlSection
    case MarkdownHeader => MarkdownSection
    case Body => cur
  }

  /** The current section after reading the first `k` lines, each classified by `kind`. */
  function SectionAfter(lines: seq<string>, kind: string -> LineKind, k: nat): Section
    requires k <= |lines|
  {
    if k == 0 then NoSection
    else NextSection(SectionAfter(lines, kind, k - 1), kind(lines[k - 1]))
  }

  /** The lines among the first `k` copied into section `sec`, unmodified and in order; a
      header line is never copied. */
  function Collected(lines: seq<string>, kind: string -> LineKind, sec: Section, k: nat): (r: seq<string>)
    requires k <= |lines|
    ensures forall n :: 0 <= n < |r| ==> kind(r[n]) == Body
    ensures |r| <= k
  {
    if k == 0 then []
    else
      Collected(lines, kind, sec, k - 1) +
      (if kind(lines[k - 1]) == Body && SectionAfter(lines, kind, k - 1) == sec then [lines[k - 1]] else [])
  }

  /** The two sections of the line split, joined and stripped. */
  function LineSplit(content: string): (string, string) {
    var lines := Split(content, '\n');
    (Strip(Join(Collected(lines, Kind, HtmlSection, |lines|), '\n')),
     Strip(Join(Collected(lines, Kind, MarkdownSection, |lines|), '\n')))
  }

  /** What parse_chatgpt_response returns: the line split when both of its sections are
      non-empty, otherwise whatever alternative_parse returns. Only an empty response comes
      back with two empty sections. */
  function ParseOf(content: string): (r: Forecasts)
    ensures r.raw == content
    ensures LineSplit(content).0 != "" && LineSplit(content).1 != "" ==> (r.html, r.markdown) == LineSplit(content)
    ensures LineSplit(content).0 == "" || LineSplit(content).1 == "" ==> r == AlternativeSplit(content)
    ensures r.html == "" && r.markdown == "" ==> content == ""
  {
    var (html, markdown) := LineSplit(content);
    if html == "" || markdown == "" then AlternativeSplit(content)
    else Forecasts(html, markdown, content)
  }

  /** parse_chatgpt_response with the corrected fallback split. */
  function ParseOfFixed(content: string): (r: Forecasts)
    ensures r.raw == content
    ensures LineSplit(content).0 != "" && LineSplit(content).1 != "" ==> (r.html, r.markdown) == LineSplit(content)
    ensures LineSplit(content).0 == "" || LineSplit(content).1 == "" ==> r == AlternativeSplitFixed(content)
    ensures r.html == "" && r.markdown == "" ==> content == ""
  {
    var (html, markdown) := LineSplit(content);
    if html == "" || markdown == "" then AlternativeSplitFixed(content)
    else Forecasts(html, markdown, content)
  }

  /** The state machine over the lines, each classified by `kind`. */
  method CollectLoop(lines: seq<string>, kind: string -> LineKind) returns (html: seq<string>, markdown: seq<string>)
    ensures html == Collected(lines, kind, HtmlSection, |lines|)
    ensures markdown == Collected(lines, kind, MarkdownSection, |lines|)
  {
    html := [];
    markdown := [];
    var current := NoSection;
    var k := 0;
    while k < |lines|
      invariant 0 <= k <= |lines|
      invariant current == SectionAfter(lines, kind, k)
      invariant html == Collected(lines, kind, HtmlSection, k)
      invariant markdown == Collected(lines, kind, MarkdownSection, k)
    {
      var line := lines[k];
      var lineKind := kind(line);
      if lineKind == HtmlHeader {
        current := HtmlSection;
      } else if lineKind == MarkdownHeader {
        current := MarkdownSection;
      } else if current == HtmlSection {
        html := html + [line];
      } else if current == MarkdownSection {
        markdown := markdown + [line];
      }
      k := k + 1;
    }
  }

  method CollectSections(lines: seq<string>) returns (html: seq<string>, markdown: seq<string>)
    ensures html == Collected(lines, Kind, HtmlSection, |lines|)
    ensures markdown == Collected(lines, Kind, MarkdownSection, |lines|)
  {
    html, markdown := CollectLoop(lines, Kind);
  }

  /** The line split of the response: both sections, joined and stripped. */
  method SplitLines(content: string) returns (html: string, markdown: string)
    ensures (html, markdown) == LineSplit(content)
  {
    var lines := Split(content, '\n');
    var htmlLines, markdownLines := CollectSections(lines);
    html := Strip(Join(htmlLines, '\n'));
    markdown := Strip(Join(markdownLines, '\n'));
  }

  method ParseResponse(content: string) returns (r: Forecasts)
    ensures r == ParseOf(content)
    ensures r.raw == content
  {
    var html, markdown := SplitLines(content);
    if html == "" || markdown == "" {
      r := AlternativeParse(content);
      return;
    }
    r := Forecasts(html, markdown, content);
  }

  /** parse_chatgpt_response with the corrected fallback split. */
  method ParseResponseFixed(content: string) returns (r: Forecasts)
    ensures r == ParseOfFixed(content)
    ensures r.raw == content
  {
    var html, markdown := SplitLines(content);
    if html == "" || markdown == "" {
      r := AlternativeParseFixed(content);
      return;
    }
    r := Forecasts(html, markdown, content);
  }

  /** The lines before the first header are discarded: nothing is collected while no
      header has been read. */
  lemma {:induction false} PreambleDiscarded(lines: seq<string>, kind: string -> LineKind, sec: Section, k: nat)
    requires k <= |lines| && forall n :: 0 <= n < k ==> kind(lines[n]) == Body
    requires sec != NoSection
    ensures SectionAfter(lines, kind, k) == NoSection
    ensures Collected(lines, kind, sec, k) == []
  {
    if k > 0 {
      PreambleDiscarded(lines, kind, sec, k - 1);
    }
  }

  /** After a header, every following line up to the next header goes unmodified and in
      order to that header's section, and nothing goes to the other section. */
  lemma {:induction false} SectionBody(lines: seq<string>, kind: string -> LineKind, i: nat, j: nat, sec: Section, other: Section)
    requires i < j <= |lines| && kind(lines[i]) != Body
    requires forall n :: i < n < j ==> kind(lines[n]) == Body
    requires sec == NextSection(NoSection, kind(lines[i])) && other != sec
    ensures SectionAfter(lines, kind, j) == sec
    ensures Collected(lines, kind, sec, j) == Collected(lines, kind, sec, i + 1) + lines[i + 1..j]
    ensures Collected(lines, kind, other, j) == Collected(lines, kind, other, i + 1)
    decreases j - i
  {
    if j == i + 1 {
      assert lines[i + 1..j] == [];
    } else {
      SectionBody(lines, kind, i, j - 1, sec, other);
      BodyLineStep(lines, kind, i, j, sec, other);
    }
  }

  /** A body line after the header goes to the header's section and nowhere else. */
  lemma BodyLineStep(lines: seq<string>, kind: string -> LineKind, i: nat, j: nat, sec: Section, other: Section)
    requires i + 1 < j <= |lines| && kind(lines[j - 1]) == Body && other != sec
    requires SectionAfter(lines, kind, j - 1) == sec
    requires Collected(lines, kind, sec, j - 1) == Collected(lines, kind, sec, i + 1) + lines[i + 1..j - 1]
    requires Collected(lines, kind, other, j - 1) == Collected(lines, kind, other, i + 1)
    ensures SectionAfter(lines, kind, j) == sec
    ensures Collected(lines, kind, sec, j) == Collected(lines, kind, sec, i + 1) + lines[i + 1..j]
    ensures Collected(lines, kind, other, j) == Collected(lines, kind, other, i + 1)
  {
    SliceExtend(lines, i + 1, j - 1);
    AppendAssoc(Collected(lines, kind, sec, i + 1), lines[i + 1..j - 1], [lines[j - 1]]);
  }

  // ---------------------------------------------------------------------------
  // alternative_parse: marker positions
  // ---------------------------------------------------------------------------

  const HtmlMarkers: seq<string> := ["html version", "## html", "html:", "<html", "<!doctype"]
  const MarkdownMarkers: seq<string> := ["markdown version", "## markdown", "markdown:", "# "]

  /** The index of the first marker, in list order from `k` on, that occurs in `text` at a
      position greater than `after`; |markers| when there is none. */
  function MarkerIndex(text: string, markers: seq<string>, after: int, k: nat): (m: nat)
    requires k <= |markers|
    ensures k <= m <= |markers|
    ensures m < |markers| ==> Find(text, markers[m]) != -1 && Find(text, markers[m]) > after
    ensures forall j :: k <= j < m ==> Find(text, markers[j]) == -1 || Find(text, markers[j]) <= after
    decreases |markers| - k
  {
    if k == |markers| then k
    else
      var pos := Find(text, markers[k]);
      if pos != -1 && pos > after then k else MarkerIndex(text, markers, after, k + 1)
  }

  /** The position of that marker, or -1. */
  function MarkerPos(text: string, markers: seq<string>, after: int): (r: int)
    ensures r == -1 || (after < r && r <= |text|)
  {
    var m := MarkerIndex(text, markers, after, 0);
    if m == |markers| then -1 else Find(text, markers[m])
  }

  /** html_start: where the first html marker in list order that occurs is found. */
  function HtmlStart(lower: string): int { MarkerPos(lower, HtmlMarkers, -1) }

  /** md_start: where the first markdown marker in list order that occurs after html_start
      is found. */
  function MarkdownStart(lower: string): (r: int)
    ensures r == -1 || HtmlStart(lower) < r <= |lower|
  {
    MarkerPos(lower, MarkdownMarkers, HtmlStart(lower))
  }

  /** The split at html_start and md_start: the html slice runs up to md_start when both
      are found and to the end otherwise, the markdown slice from md_start to the end;
      each is stripped, and when both come out empty both outputs are the whole response. */
  function SplitAt(content: string, hs: int, ms: int): (r: Forecasts)
    requires -1 <= hs <= |content|
    requires ms == -1 || (hs < ms <= |content|)
    ensures r.raw == content
    ensures hs == -1 && ms == -1 ==> r.html == content && r.markdown == content
    ensures r.html == "" && r.markdown == "" ==> content == ""
  {
    var he := if ms != -1 && hs != -1 then ms else |content|;
    var html := if hs != -1 then Strip(content[hs..he]) else "";
    var markdown := if ms != -1 then Strip(content[ms..]) else "";
    if html == "" && markdown == "" then Forecasts(content, content, content)
    else Forecasts(html, markdown, content)
  }

  /** The sections of the split: with both markers found the html section is the
      stripped text from html_start up to md_start and the markdown section the stripped
      text from md_start on; with one marker found that section runs to the end and the
      other is empty; both become the whole response only when both come out empty. */
  lemma SplitAtSections(content: string, hs: int, ms: int)
    requires -1 <= hs <= |content|
    requires ms == -1 || (hs < ms <= |content|)
    ensures var r := SplitAt(content, hs, ms);
            hs != -1 && ms != -1 && (Strip(content[hs..ms]) != "" || Strip(content[ms..]) != "") ==>
              r.html == Strip(content[hs..ms]) && r.markdown == Strip(content[ms..])
    ensures var r := SplitAt(content, hs, ms);
            hs != -1 && ms == -1 && Strip(content[hs..]) != "" ==> r.html == Strip(content[hs..]) && r.markdown == ""
    ensures var r := SplitAt(content, hs, ms);
            hs == -1 && ms != -1 && Strip(content[ms..]) != "" ==> r.html == "" && r.markdown == Strip(content[ms..])
  {
    if hs != -1 && ms != -1 {
      var html := Strip(content[hs..ms]);
      var markdown := Strip(content[ms..]);
      assert SplitAt(content, hs, ms) == if html == "" && markdown == "" then Forecasts(content, content, content)
                                         else Forecasts(html, markdown, content);
    } else if hs != -1 {
      assert content[hs..|content|] == content[hs..];
    }
  }

  /** What alternative_parse returns; positions are found in the lower-cased response,
      which has the same length, and the slices are taken from the response itself. */
  function AlternativeSplit(content: string): (r: Forecasts)
    ensures r.raw == content
  {
    var lower := Lower(content);
    SplitAt(content, HtmlStart(lower), MarkdownStart(lower))
  }

  /** alternative_parse's sections at its own markers: with html_start and md_start both
      found, html is the stripped response from html_start up to md_start and markdown the
      stripped response from md_start on, unless both come out empty. */
  lemma AlternativeSections(content: string)
    ensures var lower := Lower(content); var hs := HtmlStart(lower); var ms := MarkdownStart(lower);
            var r := AlternativeSplit(content);
            hs != -1 && ms != -1 && (Strip(content[hs..ms]) != "" || Strip(content[ms..]) != "") ==>
              r.html == Strip(content[hs..ms]) && r.markdown == Strip(content[ms..])
  {
    var lower := Lower(content);
    SplitAtSections(content, HtmlStart(lower), MarkdownStart(lower));
  }

  /** The loop over a marker list: the position of the first marker, in list order, found
      in `text` after `after`, or -1. */
  method FindMarker(text: string, markers: seq<string>, after: int) returns (pos: int, index: nat)
    ensures pos == MarkerPos(text, markers, after)
    ensures index == MarkerIndex(text, markers, after, 0)
  {
    var k := 0;
    while k < |markers|
      invariant 0 <= k <= |markers|
      invariant MarkerIndex(text, markers, after, 0) == MarkerIndex(text, markers, after, k)
    {
      var p := Find(text, markers[k]);
      if p != -1 && p > after {
        return p, k;
      }
      k := k + 1;
    }
    return -1, |markers|;
  }

  /** The slicing and stripping at the two marker positions. */
  method SplitAtMarkers(content: string, htmlStart: int, mdStart: int) returns (r: Forecasts)
    requires -1 <= htmlStart <= |content|
    requires mdStart == -1 || (htmlStart < mdStart <= |content|)
    ensures r == SplitAt(content, htmlStart, mdStart)
  {
    var htmlEnd := |content|;
    if mdStart != -1 && htmlStart != -1 {
      htmlEnd := mdStart;
    }
    var html := "";
    if htmlStart != -1 {
      html := Strip(content[htmlStart..htmlEnd]);
    }
    var markdown := "";
    if mdStart != -1 {
      markdown := Strip(content[mdStart..]);
    }
    if html == "" && markdown == "" {
      return Forecasts(content, content, content);
    }
    return Forecasts(html, markdown, content);
  }

  /** alternative_parse: the html markers are searched in list order, then the markdown
      markers in list order, accepting only a match after html_start. */
  method AlternativeParse(content: string) returns (r: Forecasts)
    ensures r == AlternativeSplit(content)
    ensures r.raw == content
  {
    var lower := Lower(content);
    var htmlStart, _ := FindMarker(lower, HtmlMarkers, -1);
    var mdStart, _ := FindMarker(lower, MarkdownMarkers, htmlStart);
    r := SplitAtMarkers(content, htmlStart, mdStart);
  }

  /** alternative_parse with the corrected markdown search: the markdown markers are
      looked for after the last character of the html marker that was found. */
  method AlternativeParseFixed(content: string) returns (r: Forecasts)
    ensures r == AlternativeSplitFixed(content)
    ensures r.raw == content
  {
    var lower := Lower(content);
    var htmlStart, m := FindMarker(lower, HtmlMarkers, -1);
    var after := -1;
    if m < |HtmlMarkers| {
      assert htmlStart == Find(lower, HtmlMarkers[m]);
      after := htmlStart + |HtmlMarkers[m]| - 1;
    }
    var mdStart, _ := FindMarker(lower, MarkdownMarkers, after);
    assert mdStart == MarkdownStartFixed(lower);
    r := SplitAtMarkers(content, htmlStart, mdStart);
  }

  /** With the correction, a markdown section found starts after the whole html marker. */
  lemma MarkdownAfterHtmlMarker(content: string)
    requires HtmlStart(Lower(content)) != -1 && MarkdownStartFixed(Lower(content)) != -1
    ensures var lower := Lower(content);
            HtmlStart(lower) + |HtmlMarkers[MarkerIndex(lower, HtmlMarkers, -1, 0)]| <= MarkdownStartFixed(lower)
  {
  }

  /** The correction changes nothing for a response without an html marker. */
  lemma FixedAgreesWithoutHtml(content: string)
    requires HtmlStart(Lower(content)) == -1
    ensures AlternativeSplitFixed(content) == AlternativeSplit(content)
  {
  }

  /** A marker that is missing, or found at or before `after`, is passed over. */
  lemma MarkerIndexSkip(text: string, markers: seq<string>, after: int, k: nat)
    requires k < |markers| && (Find(text, markers[k]) == -1 || Find(text, markers[k]) <= after)
    ensures MarkerIndex(text, markers, after, k) == MarkerIndex(text, markers, after, k + 1)
  {
  }

  /** A marker found after `after` is the one chosen. */
  lemma MarkerIndexHit(text: string, markers: seq<string>, after: int, k: nat)
    requires k < |markers| && Find(text, markers[k]) != -1 && Find(text, markers[k]) > after
    ensures MarkerIndex(text, markers, after, k) == k
  {
  }

  /** The response of the example below and its lower-cased form. */
  const HeaderOnly: string := "## HTML\nSnow"
  const HeaderOnlyLower: string := "## html\nsnow"

  lemma HeaderOnlyHtmlFinds(lower: string)
    requires lower == HeaderOnlyLower
    ensures Find(lower, HtmlMarkers[0]) == -1 && Find(lower, HtmlMarkers[1]) == 0
  {
    assert !IsAt(lower, HtmlMarkers[0], 0) by {
      assert lower[0..12][0] == '#';
    }
    assert IsAt(lower, HtmlMarkers[1], 0);
    FindIs(lower, HtmlMarkers[1], 0);
  }

  /** In the example the second html marker, "## html", is found, at position 0. */
  lemma HeaderOnlyHtml(lower: string)
    requires lower == HeaderOnlyLower
    ensures MarkerIndex(lower, HtmlMarkers, -1, 0) == 1 && HtmlStart(lower) == 0
  {
    HeaderOnlyHtmlFinds(lower);
    MarkerIndexSkip(lower, HtmlMarkers, -1, 0);
    MarkerIndexHit(lower, HtmlMarkers, -1, 1);
  }

  lemma HeaderOnlyMarkers()
    ensures Lower(HeaderOnly) == HeaderOnlyLower
    ensures MarkerIndex(Lower(HeaderOnly), HtmlMarkers, -1, 0) == 1
    ensures HtmlStart(Lower(HeaderOnly)) == 0
  {
    assert Lower(HeaderOnly) == HeaderOnlyLower;
    HeaderOnlyHtml(Lower(HeaderOnly));
  }

  /** The example holds no 'k', so no markdown marker but "# " occurs in it. */
  lemma HeaderOnlyMarkdownWords(lower: string)
    requires 'k' !in lower
    ensures Find(lower, MarkdownMarkers[0]) == -1
    ensures Find(lower, MarkdownMarkers[1]) == -1
    ensures Find(lower, MarkdownMarkers[2]) == -1
  {
    FindMissingChar(lower, "markdown version", 3);
    FindMissingChar(lower, "## markdown", 6);
    FindMissingChar(lower, "markdown:", 3);
  }

  lemma HeaderOnlyHashFind(lower: string)
    requires lower == HeaderOnlyLower
    ensures Find(lower, MarkdownMarkers[3]) == 1
  {
    assert !IsAt(lower, MarkdownMarkers[3], 0) by {
      assert lower[0..2][1] == lower[1] == '#';
    }
    assert IsAt(lower, MarkdownMarkers[3], 1);
    FindIs(lower, MarkdownMarkers[3], 1);
  }

  /** In the example "# " is found at position 1, right after html_start. */
  lemma HeaderOnlyHash(lower: string)
    requires lower == HeaderOnlyLower
    ensures MarkerPos(lower, MarkdownMarkers, 0) == 1
  {
    HeaderOnlyMarkdownWords(lower);
    HeaderOnlyHashFind(lower);
    MarkerIndexSkip(lower, MarkdownMarkers, 0, 0);
    MarkerIndexSkip(lower, MarkdownMarkers, 0, 1);
    MarkerIndexSkip(lower, MarkdownMarkers, 0, 2);
    MarkerIndexHit(lower, MarkdownMarkers, 0, 3);
  }

  lemma HeaderOnlyMarkdown()
    ensures MarkdownStart(Lower(HeaderOnly)) == 1
  {
    HeaderOnlyMarkers();
    HeaderOnlyHash(Lower(HeaderOnly));
  }

  /** As written, the "# " markdown marker matches inside the "## html" header itself,
      one character after html_start, so the html output is the lone "#" and does not
      begin with the marker that was found. */
  lemma HashMarkerCutsHtmlHeader()
    ensures var r := AlternativeSplit(HeaderOnly);
            r.html == "#" && !StartsWith(Lower(r.html), HtmlMarkers[MarkerIndex(Lower(r.raw), HtmlMarkers, -1, 0)])
  {
    HeaderOnlyMarkers();
    HeaderOnlyMarkdown();
    assert HeaderOnly[0..1] == "#";
    assert !IsPySpace('#');
  }

  /** The example's lines: the html header and one body line. */
  lemma HeaderOnlyLines()
    ensures Split(HeaderOnly, '\n') == ["## HTML", "Snow"]
  {
    assert HeaderOnly == "## HTML" + ['\n'] + "Snow";
    SplitWhole("Snow", '\n');
    SplitFirstPiece("## HTML", "Snow", '\n');
  }

  /** The example's first line is the html header. */
  lemma HtmlHeaderLine()
    ensures Kind("## HTML") == HtmlHeader
  {
    NormalHtmlHeader();
    assert IsHtmlHeader("## HTML");
  }

  lemma NormalHtmlHeader()
    ensures Normal("## HTML") == "## html"
  {
    var l := Lower("## HTML");
    forall k | 0 <= k < 7 ensures l[k] == "## html"[k] {
      assert l[k] == LowerChar("## HTML"[k]);
    }
    assert l == "## html";
    StripNothing("## html", IsPySpace);
  }

  /** Nothing of the example goes to the markdown section. */
  lemma HeaderOnlyNoMarkdown(lines: seq<string>)
    requires lines == ["## HTML", "Snow"]
    ensures Collected(lines, Kind, MarkdownSection, |lines|) == []
  {
    HtmlHeaderLine();
    assert SectionAfter(lines, Kind, 0) == NoSection;
    assert SectionAfter(lines, Kind, 1) == HtmlSection;
    assert Collected(lines, Kind, MarkdownSection, 1) == [];
  }

  /** The example's line split finds no markdown section. */
  lemma HeaderOnlyLineSplit()
    ensures LineSplit(HeaderOnly).1 == ""
  {
    HeaderOnlyLines();
    HeaderOnlyNoMarkdown(["## HTML", "Snow"]);
    assert Join([], '\n') == "";
    StripNothing("", IsPySpace);
  }

  /** The program's parse of the example keeps the cut html section: the line split has
      no markdown section, so parse_chatgpt_response returns alternative_parse's "#". */
  lemma ParseCutsHtmlHeader()
    ensures ParseOf(HeaderOnly).html == "#"
  {
    HeaderOnlyLineSplit();
    HashMarkerCutsHtmlHeader();
  }

  /** The evident intent: a markdown marker counts only when it starts after the whole
      html marker. */
  function MarkdownStartFixed(lower: string): (r: int)
    ensures r == -1 || HtmlStart(lower) < r <= |lower|
  {
    var m := MarkerIndex(lower, HtmlMarkers, -1, 0);
    var after := if m == |HtmlMarkers| then -1 else Find(lower, HtmlMarkers[m]) + |HtmlMarkers[m]| - 1;
    MarkerPos(lower, MarkdownMarkers, after)
  }

  function AlternativeSplitFixed(content: string): (r: Forecasts)
    ensures r.raw == content
  {
    var lower := Lower(content);
    SplitAt(content, HtmlStart(lower), MarkdownStartFixed(lower))
  }

  /** No html marker begins or ends with whitespace. */
  lemma HtmlMarkersTrimmed(m: nat)
    requires m < |HtmlMarkers|
    ensures !IsPySpace(HtmlMarkers[m][0]) && !IsPySpace(HtmlMarkers[m][|HtmlMarkers[m]| - 1])
  {
  }

  /** The found marker, read back from the response itself. */
  lemma MarkerInResponse(content: string, hs: int, m: string)
    requires IsAt(Lower(content), m, hs)
    ensures Lower(content[hs..hs + |m|]) == m
  {
    var lower := Lower(content);
    forall k | 0 <= k < |m| ensures Lower(content[hs..hs + |m|])[k] == m[k] {
      assert lower[hs..hs + |m|][k] == m[k];
    }
  }

  /** When the markdown slice starts after the whole marker found at html_start, the html
      output begins with that marker. */
  lemma SplitKeepsMarker(content: string, hs: int, ms: int, m: string)
    requires 0 < |m| && !IsPySpace(m[0]) && !IsPySpace(m[|m| - 1])
    requires IsAt(Lower(content), m, hs)
    requires ms == -1 || hs + |m| <= ms <= |content|
    ensures StartsWith(Lower(SplitAt(content, hs, ms).html), m)
  {
    var he := if ms != -1 then ms else |content|;
    var s := content[hs..he];
    var p := s[..|m|];
    assert p == content[hs..hs + |m|];
    MarkerInResponse(content, hs, m);
    assert Lower(p)[0] == LowerChar(s[0]);
    LowerNonSpace(s[0]);
    assert Lower(p)[|m| - 1] == LowerChar(s[|m| - 1]);
    LowerNonSpace(s[|m| - 1]);
    StripKeepsPrefix(s, |m|);
    var u := Strip(s);
    assert SplitAt(content, hs, ms).html == u;
    LowerPrefix(u, |m|);
  }

  /** With the correction, the html output begins with the html marker that was found. */
  lemma FixedKeepsHtmlMarker(content: string)
    requires HtmlStart(Lower(content)) != -1
    ensures var r := AlternativeSplitFixed(content);
            StartsWith(Lower(r.html), HtmlMarkers[MarkerIndex(Lower(r.raw), HtmlMarkers, -1, 0)])
  {
    var lower := Lower(content);
    var index := MarkerIndex(lower, HtmlMarkers, -1, 0);
    var m := HtmlMarkers[index];
    var hs := HtmlStart(lower);
    assert hs == Find(lower, m) && IsAt(lower, m, hs);
    HtmlMarkersTrimmed(index);
    SplitKeepsMarker(content, hs, MarkdownStartFixed(lower), m);
  }

  // ---------------------------------------------------------------------------
  // load_hourly_forecast
  // ---------------------------------------------------------------------------

  const Elevations: seq<string> := ["top", "mid", "bot"]

  function ElevationFile(e: string): string { "hourly_forecast_" + e + ".json" }

  const LegacyFile: string := "hourly_forecast.json"

  /** Why load_hourly_forecast raises: no file at all, a file json.load rejects, or a parsed
      document that `len()` rejects with TypeError (a number, a boolean or null). */
  datatype LoadError = FileNotFound | JsonDecodeError(file: string) | NoLength(file: string)

  /** A file the loader gets past: absent, or parsed into a document that has a length. */
  predicate Loadable<T>(file: Option<FileContent<T>>, hasLen: T -> bool) {
    file.None? || (file.value.Parsed? && hasLen(file.value.doc))
  }

  /** The elevation data after the first `k` of the elevations `es`, each read from the
      file that `fileOf` names, as an ordered dictionary; an existing file that json.load
      rejects, or whose document `len()` rejects, ends the load with that error. */
  function LoadedAfter<T>(files: Files<T>, es: seq<string>, fileOf: string -> string, hasLen: T -> bool, k: nat): Result<seq<(string, T)>, LoadError>
    requires k <= |es|
  {
    if k == 0 then Ok([])
    else
      match LoadedAfter(files, es, fileOf, hasLen, k - 1)
      case Err(e) => Err(e)
      case Ok(acc) =>
        var name := fileOf(es[k - 1]);
        match files(name)
        case None => Ok(acc)
        case Some(Malformed) => Err(JsonDecodeError(name))
        case Some(Parsed(d)) => if hasLen(d) then Ok(acc + [(es[k - 1], d)]) else Err(NoLength(name))
  }

  /** What load_hourly_forecast returns: the per-elevation files when any exists, else the
      legacy single file under 'mid', else FileNotFoundError. `hasLen` tells which parsed
      documents `len()` accepts, as the progress messages call it on each one. */
  function LoadOf<T>(files: Files<T>, hasLen: T -> bool): Result<seq<(string, T)>, LoadError> {
    match LoadedAfter(files, Elevations, ElevationFile, hasLen, |Elevations|)
    case Err(e) => Err(e)
    case Ok(acc) =>
      if acc != [] then Ok(acc)
      else
        match files(LegacyFile)
        case None => Err(FileNotFound)
        case Some(Malformed) => Err(JsonDecodeError(LegacyFile))
        case Some(Parsed(d)) => if hasLen(d) then Ok([("mid", d)]) else Err(NoLength(LegacyFile))
  }

  /** The loop over the elevations; a malformed file, or a document without a length,
      raises at once. */
  method LoadElevations<T>(files: Files<T>, es: seq<string>, fileOf: string -> string, hasLen: T -> bool) returns (r: Result<seq<(string, T)>, LoadError>)
    ensures r == LoadedAfter(files, es, fileOf, hasLen, |es|)
  {
    var data: seq<(string, T)> := [];
    var k := 0;
    while k < |es|
      invariant 0 <= k <= |es|
      invariant LoadedAfter(files, es, fileOf, hasLen, k) == Ok(data)
    {
      var name := fileOf(es[k]);
      var file := files(name);
      if file.Some? {
        if file.value.Malformed? {
          LoadErrorPersists(files, es, fileOf, hasLen, k + 1, |es|);
          return Err(JsonDecodeError(name));
        }
        if !hasLen(file.value.doc) {
          LoadErrorPersists(files, es, fileOf, hasLen, k + 1, |es|);
          return Err(NoLength(name));
        }
        data := data + [(es[k], file.value.doc)];
      }
      k := k + 1;
    }
    return Ok(data);
  }

  method LoadHourlyForecast<T>(files: Files<T>, hasLen: T -> bool) returns (r: Result<seq<(string, T)>, LoadError>)
    ensures r == LoadOf(files, hasLen)
  {
    r := LoadElevations(files, Elevations, ElevationFile, hasLen);
    if r.Err? || r.value != [] {
      return;
    }
    var legacy := files(LegacyFile);
    if legacy.None? {
      return Err(FileNotFound);
    }
    if legacy.value.Malformed? {
      return Err(JsonDecodeError(LegacyFile));
    }
    if !hasLen(legacy.value.doc) {
      return Err(NoLength(LegacyFile));
    }
    return Ok([("mid", legacy.value.doc)]);
  }

  /** An error from one elevation file ends the load: it is the error of the whole. */
  lemma {:induction false} LoadErrorPersists<T>(files: Files<T>, es: seq<string>, fileOf: string -> string, hasLen: T -> bool, k: nat, n: nat)
    requires k <= n <= |es| && LoadedAfter(files, es, fileOf, hasLen, k).Err?
    ensures LoadedAfter(files, es, fileOf, hasLen, n) == LoadedAfter(files, es, fileOf, hasLen, k)
    decreases n - k
  {
    if k < n {
      LoadErrorPersists(files, es, fileOf, hasLen, k + 1, n);
    }
  }

  /** The elevations among the first `k` whose file exists, in the loader's order. */
  function Existing<T>(files: Files<T>, es: seq<string>, fileOf: string -> string, k: nat): seq<string>
    requires k <= |es|
  {
    if k == 0 then []
    else Existing(files, es, fileOf, k - 1) + (if files(fileOf(es[k - 1])).Some? then [es[k - 1]] else [])
  }

  /** The load succeeds over the first `k` elevations exactly when each of their existing
      files parses into a document with a length, and then its keys are the elevations
      whose file exists, in the loader's order. */
  lemma {:induction false} LoadedKeys<T>(files: Files<T>, es: seq<string>, fileOf: string -> string, hasLen: T -> bool, k: nat)
    requires k <= |es|
    ensures LoadedAfter(files, es, fileOf, hasLen, k).Ok? <==> forall j :: 0 <= j < k ==> Loadable(files(fileOf(es[j])), hasLen)
    ensures LoadedAfter(files, es, fileOf, hasLen, k).Ok? ==> Keys(LoadedAfter(files, es, fileOf, hasLen, k).value) == Existing(files, es, fileOf, k)
  {
    if k > 0 {
      LoadedKeys(files, es, fileOf, hasLen, k - 1);
      var name := fileOf(es[k - 1]);
      match LoadedAfter(files, es, fileOf, hasLen, k - 1)
      case Err(e) =>
      case Ok(acc) =>
        match files(name)
        case None =>
        case Some(Malformed) =>
        case Some(Parsed(d)) =>
          if hasLen(d) {
            var next := acc + [(es[k - 1], d)];
            assert next[..|next| - 1] == acc;
          }
    }
  }

  /** No elevation exists among the first `k` exactly when none of their files exists. */
  lemma {:induction false} ExistingEmpty<T>(files: Files<T>, es: seq<string>, fileOf: string -> string, k: nat)
    requires k <= |es|
    ensures Existing(files, es, fileOf, k) == [] <==> forall j :: 0 <= j < k ==> files(fileOf(es[j])).None?
  {
    if k > 0 {
      ExistingEmpty(files, es, fileOf, k - 1);
    }
  }

  /** The load reads the elevation files and nothing else. */
  lemma {:induction false} LoadedReadsOnly<T>(files: Files<T>, other: Files<T>, es: seq<string>, fileOf: string -> string, hasLen: T -> bool, k: nat)
    requires k <= |es| && forall j :: 0 <= j < |es| ==> files(fileOf(es[j])) == other(fileOf(es[j]))
    ensures LoadedAfter(files, es, fileOf, hasLen, k) == LoadedAfter(other, es, fileOf, hasLen, k)
  {
    if k > 0 {
      LoadedReadsOnly(files, other, es, fileOf, hasLen, k - 1);
    }
  }

  /** When some elevation file exists, the legacy file is never consulted. */
  lemma LegacyIgnored<T>(files: Files<T>, other: Files<T>, hasLen: T -> bool)
    requires forall e :: e in Elevations ==> files(ElevationFile(e)) == other(ElevationFile(e))
    requires exists e :: e in Elevations && files(ElevationFile(e)).Some?
    ensures LoadOf(files, hasLen) == LoadOf(other, hasLen)
  {
    forall j | 0 <= j < |Elevations|
      ensures files(ElevationFile(Elevations[j])) == other(ElevationFile(Elevations[j]))
    {
      assert Elevations[j] in Elevations;
    }
    LoadedReadsOnly(files, other, Elevations, ElevationFile, hasLen, |Elevations|);
    LoadedKeys(files, Elevations, ElevationFile, hasLen, |Elevations|);
    ExistingEmpty(files, Elevations, ElevationFile, |Elevations|);
    var e :| e in Elevations && files(ElevationFile(e)).Some?;
    var j :| 0 <= j < |Elevations| && Elevations[j] == e;
  }

  /** With no elevation file the legacy file is loaded and stored as the 'mid' elevation;
      a legacy document without a length raises TypeError instead. */
  lemma LegacyAsMid<T>(files: Files<T>, hasLen: T -> bool)
    requires forall e :: e in Elevations ==> files(ElevationFile(e)).None?
    ensures files(LegacyFile).None? ==> LoadOf(files, hasLen) == Err(FileNotFound)
    ensures files(LegacyFile) == Some(Malformed) ==> LoadOf(files, hasLen) == Err(JsonDecodeError(LegacyFile))
    ensures files(LegacyFile).Some? && files(LegacyFile).value.Parsed? && hasLen(files(LegacyFile).value.doc) ==>
              LoadOf(files, hasLen) == Ok([("mid", files(LegacyFile).value.doc)])
    ensures files(LegacyFile).Some? && files(LegacyFile).value.Parsed? && !hasLen(files(LegacyFile).value.doc) ==>
              LoadOf(files, hasLen) == Err(NoLength(LegacyFile))
  {
    forall j | 0 <= j < |Elevations| ensures files(ElevationFile(Elevations[j])).None? {
      assert Elevations[j] in Elevations;
    }
    LoadedKeys(files, Elevations, ElevationFile, hasLen, |Elevations|);
    ExistingEmpty(files, Elevations, ElevationFile, |Elevations|);
  }
}
