/** The snow-focused summary export: which columns of each scraped forecast table are
    kept, from their column labels alone. */
module Columns {
  import opened Text

  /** A DataFrame column label as pandas builds it from an HTML table: a header text, a
      positional number, or a tuple holding the levels of a multi-row header. */
  datatype Column = Name(name: string) | Position(index: int) | Levels(levels: seq<string>)

  function Quote(s: string): string { "'" + s + "'" }

  function ReprItems(ls: seq<string>): string {
    if ls == [] then ""
    else if |ls| == 1 then Quote(ls[0])
    else Quote(ls[0]) + ", " + ReprItems(ls[1..])
  }

  /** str(c): the text itself, the decimal number, or the tuple's repr. */
  function ColumnStr(c: Column): string {
    match c
    case Name(s) => s
    case Position(i) => IntStr(i)
    case Levels(ls) => "(" + ReprItems(ls) + (if |ls| == 1 then "," else "") + ")"
  }

  /** The text the snow test searches: a tuple's levels joined by single spaces, else str(c). */
  function ColumnText(c: Column): string {
    if c.Levels? then Join(c.levels, ' ') else ColumnStr(c)
  }

  /** A character `\w` matches (ASCII letters, digits and the underscore). */
  predicate IsWordChar(c: char) {
    'a' <= c <= 'z' || 'A' <= c <= 'Z' || '0' <= c <= '9' || c == '_'
  }

  /** `w` occurs at `i` in `s` with a word boundary `\b` on both sides. */
  predicate WordAt(s: string, w: string, i: int) {
    IsAt(s, w, i) &&
    (i == 0 || !IsWordChar(s[i - 1])) &&
    (i + |w| == |s| || !IsWordChar(s[i + |w|]))
  }

  predicate HasWord(s: string, w: string) {
    exists i | 0 <= i <= |s| :: WordAt(s, w, i)
  }

  /** re.search(r"\b(snow|cm|fresh)\b", text.lower()) finds a match. */
  predicate IsSnowText(text: string) {
    var t := Lower(text);
    HasWord(t, "snow") || HasWord(t, "cm") || HasWord(t, "fresh")
  }

  predicate IsSnowColumn(c: Column) { IsSnowText(ColumnText(c)) }

  const DateWords: seq<string> := ["day", "date", "time", "period"]

  /** any(k in str(c).lower() for k in ["day", "date", "time", "period"]): a plain substring test. */
  predicate IsDateColumn(c: Column) {
    exists k | 0 <= k < |DateWords| :: Contains(Lower(ColumnStr(c)), DateWords[k])
  }

  // ---------------------------------------------------------------------------
  // guess_snow_columns
  // ---------------------------------------------------------------------------

  /** The snow columns, in column order. */
  function SnowColumns(cols: seq<Column>): (r: seq<Column>)
    ensures |r| <= |cols|
    ensures forall k :: 0 <= k < |r| ==> r[k] in cols && IsSnowColumn(r[k])
  {
    if cols == [] then []
    else
      var last := cols[|cols| - 1];
      SnowColumns(cols[..|cols| - 1]) + (if IsSnowColumn(last) then [last] else [])
  }

  method GuessSnowColumns(cols: seq<Column>) returns (snow: seq<Column>)
    ensures snow == SnowColumns(cols)
  {
    snow := [];
    var k := 0;
    while k < |cols|
      invariant 0 <= k <= |cols|
      invariant snow == SnowColumns(cols[..k])
    {
      assert cols[..k + 1][..k] == cols[..k];
      if IsSnowColumn(cols[k]) {
        snow := snow + [cols[k]];
      }
      k := k + 1;
    }
    assert cols[..|cols|] == cols;
  }

  /** A column is selected exactly when it is a column of the table and passes the snow test. */
  lemma {:induction false} SnowColumnsMembers(cols: seq<Column>, c: Column)
    ensures c in SnowColumns(cols) <==> c in cols && IsSnowColumn(c)
  {
    if cols != [] {
      var init := cols[..|cols| - 1];
      SnowColumnsMembers(init, c);
      assert cols == init + [cols[|cols| - 1]];
    }
  }

  predicate NoDup<T(==)>(s: seq<T>) {
    forall i, j :: 0 <= i < j < |s| ==> s[i] != s[j]
  }

  /** Selection keeps the table's order and never repeats a column the table lists once. */
  lemma {:induction false} SnowColumnsNoDup(cols: seq<Column>)
    requires NoDup(cols)
    ensures NoDup(SnowColumns(cols))
  {
    if cols != [] {
      var init := cols[..|cols| - 1];
      var last := cols[|cols| - 1];
      assert NoDup(init);
      SnowColumnsNoDup(init);
      if IsSnowColumn(last) {
        SnowColumnsMembers(init, last);
        assert last !in init;
      }
    }
  }

  // ---------------------------------------------------------------------------
  // The keep list of tidy_and_export
  // ---------------------------------------------------------------------------

  /** The keep list after visiting the first `k` columns: `snow`, then every column that
      passes `isDate` and is not already kept, in column order. */
  function KeepAfter(cols: seq<Column>, snow: seq<Column>, isDate: Column -> bool, k: nat): seq<Column>
    requires k <= |cols|
  {
    if k == 0 then snow
    else
      var prev := KeepAfter(cols, snow, isDate, k - 1);
      var c := cols[k - 1];
      if isDate(c) && c !in prev then prev + [c] else prev
  }

  /** The keep list of a table: its snow columns, then its date-like columns. */
  function KeepColumns(cols: seq<Column>): seq<Column> {
    KeepAfter(cols, SnowColumns(cols), IsDateColumn, |cols|)
  }

  /** The keep loop: every column passing `isDate` that is not yet kept is appended. */
  method KeepLoop(cols: seq<Column>, snow: seq<Column>, isDate: Column -> bool) returns (keep: seq<Column>)
    ensures keep == KeepAfter(cols, snow, isDate, |cols|)
  {
    keep := snow;
    var k := 0;
    while k < |cols|
      invariant 0 <= k <= |cols|
      invariant keep == KeepAfter(cols, snow, isDate, k)
    {
      var c := cols[k];
      KeepAfterNext(cols, snow, isDate, k);
      if isDate(c) {
        if c !in keep {
          keep := keep + [c];
        }
      }
      k := k + 1;
    }
  }

  method Keep(cols: seq<Column>, snow: seq<Column>) returns (keep: seq<Column>)
    requires snow == SnowColumns(cols)
    ensures keep == KeepColumns(cols)
  {
    keep := KeepLoop(cols, snow, IsDateColumn);
  }

  lemma KeepAfterNext(cols: seq<Column>, snow: seq<Column>, isDate: Column -> bool, k: nat)
    requires k < |cols|
    ensures var prev := KeepAfter(cols, snow, isDate, k);
            KeepAfter(cols, snow, isDate, k + 1) == if isDate(cols[k]) && cols[k] !in prev then prev + [cols[k]] else prev
  {
  }

  /** The list the loop starts from comes first, unchanged. */
  lemma {:induction false} KeepPrefix(cols: seq<Column>, snow: seq<Column>, isDate: Column -> bool, k: nat)
    requires k <= |cols|
    ensures |snow| <= |KeepAfter(cols, snow, isDate, k)|
    ensures KeepAfter(cols, snow, isDate, k)[..|snow|] == snow
  {
    if k > 0 {
      KeepPrefix(cols, snow, isDate, k - 1);
      KeepStep(cols, snow, isDate, k);
    }
  }

  /** One step of the keep loop leaves the list or appends one column to it. */
  lemma KeepStep(cols: seq<Column>, snow: seq<Column>, isDate: Column -> bool, k: nat)
    requires 0 < k <= |cols|
    ensures KeepAfter(cols, snow, isDate, k) == KeepAfter(cols, snow, isDate, k - 1) ||
            KeepAfter(cols, snow, isDate, k) == KeepAfter(cols, snow, isDate, k - 1) + [cols[k - 1]]
  {
  }

  /** A column is kept exactly when the loop started with it or it is a date-like column
      among the first `k`. */
  lemma {:induction false} KeepMembers(cols: seq<Column>, snow: seq<Column>, isDate: Column -> bool, k: nat, c: Column)
    requires k <= |cols|
    ensures c in KeepAfter(cols, snow, isDate, k) <==> c in snow || (c in cols[..k] && isDate(c))
  {
    if k > 0 {
      KeepMembers(cols, snow, isDate, k - 1, c);
      assert cols[..k] == cols[..k - 1] + [cols[k - 1]];
    }
  }

  /** The loop never adds a column twice. */
  lemma {:induction false} KeepNoDup(cols: seq<Column>, snow: seq<Column>, isDate: Column -> bool, k: nat)
    requires k <= |cols| && NoDup(snow)
    ensures NoDup(KeepAfter(cols, snow, isDate, k))
  {
    if k > 0 {
      KeepNoDup(cols, snow, isDate, k - 1);
    }
  }

  /** The snow columns come first; a column is kept exactly when it is a snow column or a
      date-like column of the table; and none is kept twice when the table lists each once. */
  lemma KeepColumnsProps(cols: seq<Column>, c: Column)
    ensures |SnowColumns(cols)| <= |KeepColumns(cols)| && KeepColumns(cols)[..|SnowColumns(cols)|] == SnowColumns(cols)
    ensures c in KeepColumns(cols) <==> c in cols && (IsSnowColumn(c) || IsDateColumn(c))
    ensures NoDup(cols) ==> NoDup(KeepColumns(cols))
  {
    var snow := SnowColumns(cols);
    KeepPrefix(cols, snow, IsDateColumn, |cols|);
    KeepMembers(cols, snow, IsDateColumn, |cols|, c);
    SnowColumnsMembers(cols, c);
    assert cols[..|cols|] == cols;
    if NoDup(cols) {
      SnowColumnsNoDup(cols);
      KeepNoDup(cols, snow, IsDateColumn, |cols|);
    }
  }

  /** The summary export: one frame per table that has a snow column, holding its kept columns. */
  function SnowFrames(tables: seq<seq<Column>>): (r: seq<seq<Column>>)
    ensures |r| <= |tables|
  {
    if tables == [] then []
    else
      var last := tables[|tables| - 1];
      SnowFrames(tables[..|tables| - 1]) + (if SnowColumns(last) != [] then [KeepColumns(last)] else [])
  }

  method SelectSnowFrames(tables: seq<seq<Column>>) returns (frames: seq<seq<Column>>)
    ensures frames == SnowFrames(tables)
  {
    frames := [];
    var k := 0;
    while k < |tables|
      invariant 0 <= k <= |tables|
      invariant frames == SnowFrames(tables[..k])
    {
      assert tables[..k + 1][..k] == tables[..k];
      var snow := GuessSnowColumns(tables[k]);
      if snow != [] {
        var keep := Keep(tables[k], snow);
        frames := frames + [keep];
      }
      k := k + 1;
    }
    assert tables[..|tables|] == tables;
  }

  /** A header level "Snow (cm)" is a snow column: "snow" and "cm" both stand as words. */
  lemma SnowHeaderMatches()
    ensures IsSnowColumn(Levels(["Snow", "(cm)"]))
  {
    var t := Lower(Join(["Snow", "(cm)"], ' '));
    assert t == "snow (cm)";
    assert WordAt(t, "snow", 0);
  }

  /** "Snowfall" is no snow column: `\b` after "snow" is missing. */
  lemma SnowfallDoesNotMatch()
    ensures !IsSnowColumn(Name("Snowfall"))
  {
    var t := Lower("Snowfall");
    assert t == "snowfall";
    SnowfallNoSnow(t);
    SnowfallNoOther(t);
  }

  lemma SnowfallNoSnow(t: string)
    requires t == "snowfall"
    ensures !HasWord(t, "snow")
  {
    forall i | 0 <= i <= |t| ensures !WordAt(t, "snow", i) {
      if i == 0 {
        assert IsWordChar(t[4]);
      } else if i + 4 <= |t| {
        assert t[i..i + 4][0] == t[i];
      }
    }
  }

  lemma SnowfallNoOther(t: string)
    requires t == "snowfall"
    ensures !HasWord(t, "cm") && !HasWord(t, "fresh")
  {
    forall i | 0 <= i <= |t| ensures !IsAt(t, "cm", i) && !IsAt(t, "fresh", i) {
      if i + 2 <= |t| {
        assert t[i..i + 2][0] == t[i];
      }
      if i + 5 <= |t| {
        assert t[i..i + 5][0] == t[i];
      }
    }
  }
}
