/** The API server's helpers that decide what it serves: the manual `.env` fallback,
    the environment debug view, the precipitation and hourly tables of the forecast page,
    the cached-forecast extraction and age text, and the elevation file selection. */
module Api {
  import opened Common
  import opened Text

  // ---------------------------------------------------------------------------
  // The manual .env fallback
  // ---------------------------------------------------------------------------

  /** The variables of the process environment. */
  type Env = map<string, string>

  const ApiKeyName: string := "OPENAI_API_KEY"

  predicate IsQuote(c: char) { c == '\'' || c == '"' }

  /** line.split('=', 1) on a line holding an '=': the text before the first '=' and
      the text after it. */
  function SplitAtEquals(line: string): (r: (string, string))
    requires '=' in line
    ensures line == r.0 + "=" + r.1 && '=' !in r.0
  {
    EqualsFound(line);
    var i := Find(line, "=");
    assert line == line[..i] + "=" + line[i + 1..];
    NoEarlierEquals(line, i);
    (line[..i], line[i + 1..])
  }

  /** One line of the `.env` file: after stripping, a line that is not empty, is no
      comment and holds an '=' assigns the text after the first '=', stripped of quote
      characters only, to the text before it, taken as it is. */
  function ParseEnvLine(raw: string): (r: Option<(string, string)>)
    ensures r.None? <==> Strip(raw) == "" || StartsWith(Strip(raw), "#") || '=' !in Strip(raw)
    ensures r.Some? ==> '=' !in r.value.0
    ensures r.Some? ==> exists rest :: Strip(raw) == r.value.0 + "=" + rest && r.value.1 == StripBy(rest, IsQuote)
    ensures r.Some? && r.value.1 != "" ==> !IsQuote(r.value.1[0]) && !IsQuote(r.value.1[|r.value.1| - 1])
  {
    var line := Strip(raw);
    EqualsFound(line);
    if line != "" && !StartsWith(line, "#") && Contains(line, "=") then
      var (key, rest) := SplitAtEquals(line);
      Some((key, StripBy(rest, IsQuote)))
    else
      None
  }

  /** The first '=' comes after every character of the key. */
  lemma NoEarlierEquals(line: string, i: int)
    requires Contains(line, "=") && i == Find(line, "=")
    ensures '=' !in line[..i]
  {
    forall k | 0 <= k < i ensures line[k] != '=' {
      assert !IsAt(line, "=", k);
      assert line[k..k + 1] == [line[k]];
    }
  }

  /** `'=' in line` is the one-character search. */
  lemma EqualsFound(line: string)
    ensures Contains(line, "=") <==> '=' in line
  {
    if '=' in line {
      var k :| 0 <= k < |line| && line[k] == '=';
      assert line[k..k + 1] == "=";
      ContainsAt(line, "=", k);
    }
    if Contains(line, "=") {
      var i := Find(line, "=");
      assert line[i] == line[i..i + 1][0];
    }
  }

  /** The first '=' of `key=value` is the one after the key. */
  lemma FirstEqualsAfterKey(key: string, value: string)
    requires '=' !in key
    ensures SplitAtEquals(key + "=" + value) == (key, value)
  {
    var line := key + "=" + value;
    assert IsAt(line, "=", |key|);
    ContainsAt(line, "=", |key|);
    var i := Find(line, "=");
    assert line[i] == line[i..i + 1][0] == '=';
    assert forall k :: 0 <= k < |key| ==> line[k] == key[k] != '=';
    assert line[..i] == key && line[i + 1..] == value;
  }

  /** A line written as `key=value` reads back as that assignment. */
  lemma ParseEnvLineInverse(key: string, value: string)
    requires key != "" && key[0] != '#' && '=' !in key
    requires !IsPySpace(key[0])
    requires value != "" ==> !IsPySpace(value[|value| - 1]) && !IsQuote(value[0]) && !IsQuote(value[|value| - 1])
    ensures ParseEnvLine(key + "=" + value) == Some((key, value))
  {
    var line := key + "=" + value;
    assert line[|line| - 1] == if value == "" then '=' else value[|value| - 1];
    assert line[0] == key[0];
    StripNothing(line, IsPySpace);
    KeyLineSplit(key, value);
    StripNothing(value, IsQuote);
    ParseAssignment(line, line);
  }

  /** `key=value` with a key that holds no '=' and does not start with '#' is no comment
      and splits back into key and value. */
  lemma KeyLineSplit(key: string, value: string)
    requires key != "" && key[0] != '#' && '=' !in key
    ensures var line := key + "=" + value;
            '=' in line && !StartsWith(line, "#") && SplitAtEquals(line) == (key, value)
  {
    var line := key + "=" + value;
    assert line[|key|] == '=';
    assert line[..1] == [key[0]];
    FirstEqualsAfterKey(key, value);
  }

  /** How one line of the file is read; the server reads it with ParseEnvLine. */
  type LineReader = string -> Option<(string, string)>

  /** What `os.environ[key] = value` accepts on a POSIX system: a non-empty name, and no
      NUL character in the name or the value. */
  predicate IsSettable(key: string, value: string) {
    key != "" && '\0' !in key && '\0' !in value
  }

  /** What a rejected assignment raises: converting a name or value that holds a NUL
      character fails first, with ValueError; an empty name gets as far as setenv(3),
      whose EINVAL becomes OSError. */
  function Rejection(key: string, value: string): PyError {
    if '\0' in key || '\0' in value then ValueError else OSError
  }

  /** Every variable of `after` that `env` lacks is assigned somewhere in `lines`. */
  predicate NewOnlyIfAssigned(env: Env, lines: seq<string>, parse: LineReader, after: Env) {
    forall name :: name in after && name !in env ==> LastAssigned(lines, parse, name).Some?
  }

  /** The environment after the assignments of `lines`, in file order; the first
      assignment os.environ rejects raises, which ends the server's start-up. */
  function EnvAfter(env: Env, lines: seq<string>, parse: LineReader): (r: Result<Env, PyError>)
    ensures r.Err? ==> r.error == ValueError || r.error == OSError
    ensures r.Ok? ==> env.Keys <= r.value.Keys
    ensures r.Ok? ==> NewOnlyIfAssigned(env, lines, parse, r.value)
  {
    if lines == [] then Ok(env)
    else
      match EnvAfter(env, lines[..|lines| - 1], parse)
      case Err(e) => Err(e)
      case Ok(before) =>
        match parse(lines[|lines| - 1])
        case None => Ok(before)
        case Some((key, value)) => if IsSettable(key, value) then Ok(before[key := value]) else Err(Rejection(key, value))
  }

  /** The value the last assignment of `name` in `lines` gives, if any. */
  function LastAssigned(lines: seq<string>, parse: LineReader, name: string): Option<string> {
    if lines == [] then None
    else
      var p := parse(lines[|lines| - 1]);
      if p.Some? && p.value.0 == name then Some(p.value.1) else LastAssigned(lines[..|lines| - 1], parse, name)
  }

  /** Text-mode reading with universal newlines: "\r\n" and a lone '\r' both end a line
      and are read as '\n'. */
  function Universal(text: string): (r: string)
    ensures '\r' !in r
    ensures '\r' !in text ==> r == text
    decreases |text|
  {
    if text == [] then []
    else if text[0] == '\r' then
      "\n" + Universal(if |text| > 1 && text[1] == '\n' then text[2..] else text[1..])
    else [text[0]] + Universal(text[1..])
  }

  /** The lines `for line in f` yields, before each is stripped. */
  function FileLines(text: string): seq<string> { Split(Universal(text), '\n') }

  /** Text without '\r' reads unchanged in front of any further text. */
  lemma {:induction false} UniversalPrefix(a: string, t: string)
    requires '\r' !in a
    ensures Universal(a + t) == a + Universal(t)
  {
    if a != [] {
      UniversalHead(a, t);
      UniversalPrefix(a[1..], t);
      assert a == [a[0]] + a[1..];
    } else {
      assert a + t == t;
    }
  }

  /** The first character of a text without '\r' is read as it is. */
  lemma UniversalHead(a: string, t: string)
    requires a != [] && '\r' !in a
    ensures '\r' !in a[1..] && Universal(a + t) == [a[0]] + Universal(a[1..] + t)
  {
    assert a + t == [a[0]] + (a[1..] + t);
    assert '\r' !in a[1..] by { assert forall c :: c in a[1..] ==> c in a; }
    UniversalCons(a[0], a[1..] + t);
  }

  /** A character other than '\r' is read as it is. */
  lemma UniversalCons(c: char, rest: string)
    requires c != '\r'
    ensures Universal([c] + rest) == [c] + Universal(rest)
  {
    var s := [c] + rest;
    assert s[0] == c && s[1..] == rest;
  }

  /** A '\r' not followed by '\n' reads as '\n'. */
  lemma UniversalLoneCr(b: string)
    requires '\r' !in b && (b == [] || b[0] != '\n')
    ensures Universal("\r" + b) == "\n" + b
  {
    var t := "\r" + b;
    assert t[0] == '\r' && t[1..] == b;
  }

  /** A lone '\r' ends a line just as '\n' does. */
  lemma CarriageReturnEndsLine(a: string, b: string)
    requires '\r' !in a && '\n' !in a && '\r' !in b
    requires b == [] || b[0] != '\n'
    ensures FileLines(a + "\r" + b) == [a] + Split(b, '\n')
  {
    UniversalCrLine(a, b);
    SplitFirstPiece(a, b, '\n');
  }

  /** A lone '\r' between two texts without '\r' is read as '\n'. */
  lemma UniversalCrLine(a: string, b: string)
    requires '\r' !in a && '\r' !in b
    requires b == [] || b[0] != '\n'
    ensures Universal(a + "\r" + b) == a + ['\n'] + b
  {
    assert a + "\r" + b == a + ("\r" + b);
    UniversalPrefix(a, "\r" + b);
    UniversalLoneCr(b);
    assert a + ("\n" + b) == a + ['\n'] + b;
  }

  /** The fallback runs only when the API key is unset or empty and the file exists. */
  predicate FallbackRuns(env: Env, file: Option<string>) {
    !(ApiKeyName in env && env[ApiKeyName] != "") && file.Some?
  }

  /** The environment once the fallback has (or has not) run over the file's lines. */
  function EnvFallbackOf(env: Env, file: Option<string>): (r: Result<Env, PyError>)
    ensures !FallbackRuns(env, file) ==> r == Ok(env)
  {
    if FallbackRuns(env, file) then EnvAfter(env, FileLines(file.value), ParseEnvLine) else Ok(env)
  }

  /** One line of the fallback loop, from an environment reached without error. */
  lemma EnvStep(env: Env, lines: seq<string>, parse: LineReader, k: nat, current: Env)
    requires k < |lines| && EnvAfter(env, lines[..k], parse) == Ok(current)
    ensures parse(lines[k]).None? ==> EnvAfter(env, lines[..k + 1], parse) == Ok(current)
    ensures parse(lines[k]).Some? && IsSettable(parse(lines[k]).value.0, parse(lines[k]).value.1) ==>
              EnvAfter(env, lines[..k + 1], parse) == Ok(current[parse(lines[k]).value.0 := parse(lines[k]).value.1])
    ensures parse(lines[k]).Some? && !IsSettable(parse(lines[k]).value.0, parse(lines[k]).value.1) ==>
              EnvAfter(env, lines[..k + 1], parse) == Err(Rejection(parse(lines[k]).value.0, parse(lines[k]).value.1))
  {
    assert lines[..k + 1][..k] == lines[..k];
    assert lines[..k + 1][k] == lines[k];
  }

  /** A rejected assignment ends the loop: its error is the result for every longer prefix. */
  lemma {:induction false} EnvErrorPersists(env: Env, lines: seq<string>, parse: LineReader, k: nat, n: nat)
    requires k <= n <= |lines| && EnvAfter(env, lines[..k], parse).Err?
    ensures EnvAfter(env, lines[..n], parse) == EnvAfter(env, lines[..k], parse)
    decreases n - k
  {
    if k < n {
      EnvErrorPersists(env, lines, parse, k, n - 1);
      assert lines[..n][..n - 1] == lines[..n - 1];
    }
  }

  method LoadEnvFallback(env: Env, file: Option<string>) returns (r: Result<Env, PyError>)
    ensures r == EnvFallbackOf(env, file)
  {
    r := Ok(env);
    if !(ApiKeyName in env && env[ApiKeyName] != "") && file.Some? {
      r := ApplyEnvLines(env, FileLines(file.value));
    }
  }

  /** The loop over the file's lines, each read by `parse`; the first rejected
      assignment raises. */
  method AssignLoop(env: Env, lines: seq<string>, parse: LineReader) returns (r: Result<Env, PyError>)
    ensures r == EnvAfter(env, lines, parse)
  {
    var current := env;
    var k := 0;
    while k < |lines|
      invariant 0 <= k <= |lines|
      invariant EnvAfter(env, lines[..k], parse) == Ok(current)
    {
      var assignment := parse(lines[k]);
      EnvStep(env, lines, parse, k, current);
      if assignment.Some? {
        var (key, value) := assignment.value;
        if !IsSettable(key, value) {
          EnvErrorPersists(env, lines, parse, k + 1, |lines|);
          assert lines[..|lines|] == lines;
          return Err(Rejection(key, value));
        }
        current := current[key := value];
      }
      k := k + 1;
    }
    assert lines[..|lines|] == lines;
    return Ok(current);
  }

  method ApplyEnvLines(env: Env, lines: seq<string>) returns (r: Result<Env, PyError>)
    ensures r == EnvAfter(env, lines, ParseEnvLine)
  {
    r := AssignLoop(env, lines, ParseEnvLine);
  }

  /** The fallback fails exactly when some line assigns what os.environ rejects. */
  lemma {:induction false} EnvFailsIff(env: Env, lines: seq<string>, parse: LineReader)
    ensures EnvAfter(env, lines, parse).Err? <==>
            exists k :: 0 <= k < |lines| && parse(lines[k]).Some? && !IsSettable(parse(lines[k]).value.0, parse(lines[k]).value.1)
  {
    if lines != [] {
      var init := lines[..|lines| - 1];
      EnvFailsIff(env, init, parse);
      if exists k :: 0 <= k < |init| && parse(init[k]).Some? && !IsSettable(parse(init[k]).value.0, parse(init[k]).value.1) {
        var k :| 0 <= k < |init| && parse(init[k]).Some? && !IsSettable(parse(init[k]).value.0, parse(init[k]).value.1);
        assert lines[k] == init[k];
      }
      if exists k :: 0 <= k < |lines| && parse(lines[k]).Some? && !IsSettable(parse(lines[k]).value.0, parse(lines[k]).value.1) {
        var k :| 0 <= k < |lines| && parse(lines[k]).Some? && !IsSettable(parse(lines[k]).value.0, parse(lines[k]).value.1);
        if k < |init| {
          assert init[k] == lines[k];
        }
      }
    }
  }

  /** A line whose assignment os.environ rejects. */
  predicate Rejected(line: string, parse: LineReader) {
    parse(line).Some? && !IsSettable(parse(line).value.0, parse(line).value.1)
  }

  /** A failing fallback raises what the first rejected line's assignment raises. */
  lemma {:induction false} EnvErrorIsFirstRejection(env: Env, lines: seq<string>, parse: LineReader)
    requires EnvAfter(env, lines, parse).Err?
    ensures exists k :: 0 <= k < |lines| && Rejected(lines[k], parse) &&
              (forall j :: 0 <= j < k ==> !Rejected(lines[j], parse)) &&
              EnvAfter(env, lines, parse).error == Rejection(parse(lines[k]).value.0, parse(lines[k]).value.1)
  {
    var init := lines[..|lines| - 1];
    if EnvAfter(env, init, parse).Err? {
      EnvErrorIsFirstRejection(env, init, parse);
      var k :| 0 <= k < |init| && Rejected(init[k], parse) &&
               (forall j :: 0 <= j < k ==> !Rejected(init[j], parse)) &&
               EnvAfter(env, init, parse).error == Rejection(parse(init[k]).value.0, parse(init[k]).value.1);
      assert forall j :: 0 <= j <= k ==> lines[j] == init[j];
    } else {
      EnvFailsIff(env, init, parse);
      var k := |lines| - 1;
      assert forall j :: 0 <= j < k ==> lines[j] == init[j];
      assert Rejected(lines[k], parse);
    }
  }

  /** A NUL character in a value fails its conversion: the line raises ValueError. */
  lemma NulValueRejected(env: Env, key: string, value: string)
    requires key != "" && key[0] != '#' && '=' !in key && !IsPySpace(key[0])
    requires '\0' in value
    requires !IsPySpace(value[|value| - 1]) && !IsQuote(value[0]) && !IsQuote(value[|value| - 1])
    ensures EnvAfter(env, [key + "=" + value], ParseEnvLine) == Err(ValueError)
  {
    ParseEnvLineInverse(key, value);
    assert Rejection(key, value) == ValueError;
    RejectedLine(env, key + "=" + value, ParseEnvLine);
  }

  /** A stripped line that is no comment and holds an '=' is split at its first '='. */
  lemma ParseAssignment(raw: string, line: string)
    requires Strip(raw) == line && line != "" && !StartsWith(line, "#") && '=' in line
    ensures ParseEnvLine(raw) == Some((SplitAtEquals(line).0, StripBy(SplitAtEquals(line).1, IsQuote)))
  {
    EqualsFound(line);
  }

  /** A line that starts with '=' and ends in no space or quote assigns its rest to the
      empty name. */
  lemma EmptyKeyLine(line: string)
    requires |line| >= 2 && line[0] == '=' && !IsPySpace(line[|line| - 1])
    requires !IsQuote(line[1]) && !IsQuote(line[|line| - 1])
    ensures ParseEnvLine(line) == Some(("", line[1..]))
  {
    StripNothing(line, IsPySpace);
    EmptyKeySplit(line);
    StripNothing(line[1..], IsQuote);
    ParseAssignment(line, line);
  }

  /** A line that starts with '=' is no comment and splits into the empty name and its rest. */
  lemma EmptyKeySplit(line: string)
    requires |line| >= 1 && line[0] == '='
    ensures '=' in line && !StartsWith(line, "#") && SplitAtEquals(line) == ("", line[1..])
  {
    assert line[..1] == "=";
    assert line == "" + "=" + line[1..];
    FirstEqualsAfterKey("", line[1..]);
  }

  /** A line "=value" assigns value to the empty name. */
  lemma EmptyKeyParsed(value: string)
    requires value != "" && !IsPySpace(value[|value| - 1]) && !IsQuote(value[0]) && !IsQuote(value[|value| - 1])
    ensures ParseEnvLine("=" + value) == Some(("", value))
  {
    var line := "=" + value;
    assert line[1..] == value && line[1] == value[0] && line[|line| - 1] == value[|value| - 1];
    EmptyKeyLine(line);
  }

  /** An empty name is rejected: a line such as "=x" stops the server's start-up with the
      OSError of setenv(3). */
  lemma EmptyKeyRejected(env: Env, value: string)
    requires value != "" && !IsPySpace(value[|value| - 1]) && !IsQuote(value[0]) && !IsQuote(value[|value| - 1])
    requires '\0' !in value
    ensures EnvAfter(env, ["=" + value], ParseEnvLine) == Err(OSError)
  {
    var line := "=" + value;
    EmptyKeyParsed(value);
    assert !IsSettable("", value) && Rejection("", value) == OSError;
    RejectedLine(env, line, ParseEnvLine);
  }

  /** A single line whose assignment os.environ rejects makes the fallback raise. */
  lemma RejectedLine(env: Env, line: string, parse: LineReader)
    requires parse(line).Some? && !IsSettable(parse(line).value.0, parse(line).value.1)
    ensures EnvAfter(env, [line], parse) == Err(Rejection(parse(line).value.0, parse(line).value.1))
  {
    assert [line][..0] == [];
  }

  /** The last assignment wins; a variable the file does not assign keeps its value. */
  lemma {:induction false} LastAssignmentWins(env: Env, lines: seq<string>, parse: LineReader, name: string)
    requires EnvAfter(env, lines, parse).Ok?
    ensures var after := EnvAfter(env, lines, parse).value;
            match LastAssigned(lines, parse, name)
            case Some(v) => name in after && after[name] == v
            case None => (name in after <==> name in env) && (name in env ==> after[name] == env[name])
  {
    if lines != [] {
      LastAssignmentWins(env, lines[..|lines| - 1], parse, name);
    }
  }

  // ---------------------------------------------------------------------------
  // /debug/env: the listed variables, secrets masked
  // ---------------------------------------------------------------------------

  const ListedPrefixes: seq<string> := ["OPENAI_", "SNOW_", "TARGET_", "ENVIRONMENT"]

  predicate IsListed(name: string) {
    exists k | 0 <= k < |ListedPrefixes| :: StartsWith(name, ListedPrefixes[k])
  }

  predicate IsSensitive(name: string) {
    var l := Lower(name);
    Contains(l, "key") || Contains(l, "secret") || Contains(l, "token")
  }

  const Mask: string := "***"

  /** The environment_variables entry, in the environment's order. */
  function DebugView(environ: seq<(string, string)>): (r: seq<(string, string)>)
    ensures |r| <= |environ|
    ensures forall k :: 0 <= k < |r| ==> IsListed(r[k].0) && (IsSensitive(r[k].0) ==> r[k].1 == Mask)
  {
    if environ == [] then []
    else
      var (name, value) := environ[|environ| - 1];
      DebugView(environ[..|environ| - 1]) +
        (if IsListed(name) then [(name, if IsSensitive(name) then Mask else value)] else [])
  }

  /** Exactly the listed variables are shown, a sensitive one as the mask and every other
      one verbatim. */
  lemma {:induction false} DebugViewMembers(environ: seq<(string, string)>, name: string, shown: string)
    ensures (name, shown) in DebugView(environ) <==>
            IsListed(name) && exists v :: (name, v) in environ && shown == (if IsSensitive(name) then Mask else v)
  {
    if environ != [] {
      var init := environ[..|environ| - 1];
      var (n, v) := environ[|environ| - 1];
      DebugViewMembers(init, name, shown);
      assert environ == init + [(n, v)];
      if (name, shown) in DebugView(environ) && (name, shown) !in DebugView(init) {
        assert name == n && (n, v) in environ;
      }
      if IsListed(name) && exists w :: (name, w) in environ && shown == (if IsSensitive(name) then Mask else w) {
        var w :| (name, w) in environ && shown == (if IsSensitive(name) then Mask else w);
        if (name, w) !in init {
          assert (name, w) == (n, v);
        }
      }
    }
  }

  /** No secret is ever shown: a sensitive variable appears only as the mask. */
  lemma NoSecretShown(environ: seq<(string, string)>, name: string, shown: string)
    requires (name, shown) in DebugView(environ) && IsSensitive(name)
    ensures shown == Mask
  {
    DebugViewMembers(environ, name, shown);
  }

  // ---------------------------------------------------------------------------
  // The forecast page: precipitation events
  // ---------------------------------------------------------------------------

  /** One exported hourly period, as the JSON object the page reads. */
  type Period = map<string, Json>

  function Get(p: Period, field: string, default: Json): Json {
    if field in p then p[field] else default
  }

  /** Python's truth value of a JSON field. */
  predicate Truthy(j: Json) {
    match j
    case JStr(s) => s != ""
    case JInt(i) => i != 0
    case JNull => false
  }

  /** f"{v}" of a JSON value. */
  function Show(j: Json): string {
    match j
    case JStr(s) => s
    case JInt(i) => IntStr(i)
    case JNull => "None"
  }

  const NoValue: string := "—"

  /** A period is an event for `field` when the field is present, truthy and not the dash. */
  predicate IsEvent(p: Period, field: string) {
    field in p && Truthy(p[field]) && p[field] != JStr(NoValue)
  }

  /** The snow (or rain) events, in forecast order. */
  function Events(data: seq<Period>, field: string): (r: seq<Period>)
    ensures |r| <= |data|
    ensures forall p :: p in r ==> p in data
  {
    if data == [] then []
    else
      var last := data[|data| - 1];
      Events(data[..|data| - 1], field) + (if IsEvent(last, field) then [last] else [])
  }

  lemma {:induction false} EventsMembers(data: seq<Period>, field: string, p: Period)
    ensures p in Events(data, field) <==> p in data && IsEvent(p, field)
  {
    if data != [] {
      EventsMembers(data[..|data| - 1], field, p);
      assert data == data[..|data| - 1] + [data[|data| - 1]];
    }
  }

  datatype PrecipRow = PrecipRow(date: string, time: string, kind: string, amount: string,
                                 description: string, sortKey: string)

  /** f"{v:03d}": a str value raises ValueError, None raises TypeError. */
  function Format03dOf(j: Json): Result<string, PyError> {
    match j
    case JInt(i) => Ok(Format03d(i))
    case JStr(_) => Err(ValueError)
    case JNull => Err(TypeError)
  }

  /** The sort key: the date, a dash and the period index padded to three digits (0 when absent). */
  function SortKey(p: Period): (r: Result<string, PyError>)
    ensures r.Err? <==> "period_index" in p && !p["period_index"].JInt?
    ensures r.Ok? ==> var date := Show(Get(p, "date", JStr("")));
                      StartsWith(r.value, date + "-") && PeriodIndex(p).JInt? &&
                      PaddedIndex(r.value[|date| + 1..], PeriodIndex(p).i)
  {
    match Format03dOf(Get(p, "period_index", JInt(0)))
    case Err(e) => Err(e)
    case Ok(index) =>
      var date := Show(Get(p, "date", JStr("")));
      Format03dPadded(PeriodIndex(p).i);
      assert (date + "-" + index)[|date| + 1..] == index;
      Ok(date + "-" + index)
  }

  /** The row for an event of kind "Snow" (unit "cm") or "Rain" (unit "mm"). */
  function RowOf(p: Period, kind: string, field: string, unit: string): (r: Result<PrecipRow, PyError>)
    ensures r.Ok? <==> SortKey(p).Ok?
    ensures r.Ok? ==> r.value.kind == kind && r.value.amount == Show(Get(p, field, JStr(""))) + unit &&
                      SortKey(p) == Ok(r.value.sortKey)
  {
    match SortKey(p)
    case Err(e) => Err(e)
    case Ok(key) =>
      Ok(PrecipRow(Show(Get(p, "day_name", JStr(""))) + " " + Show(Get(p, "day_num", JStr(""))) + " Nov",
                   Show(Get(p, "time_period", JStr(""))), kind,
                   Show(Get(p, field, JStr(""))) + unit,
                   Show(Get(p, "weather_phrase", JStr(""))), key))
  }

  /** A Python loop that appends `f(x)` for each `x` in order; the first raise ends it. */
  function MapAll<A, B>(xs: seq<A>, f: A -> Result<B, PyError>): Result<seq<B>, PyError> {
    if xs == [] then Ok([])
    else
      match MapAll(xs[..|xs| - 1], f)
      case Err(e) => Err(e)
      case Ok(ys) =>
        match f(xs[|xs| - 1])
        case Err(e) => Err(e)
        case Ok(y) => Ok(ys + [y])
  }

  method AppendAll<A, B>(xs: seq<A>, f: A -> Result<B, PyError>) returns (r: Result<seq<B>, PyError>)
    ensures r == MapAll(xs, f)
  {
    var ys: seq<B> := [];
    var k := 0;
    while k < |xs|
      invariant 0 <= k <= |xs|
      invariant MapAll(xs[..k], f) == Ok(ys)
    {
      assert xs[..k + 1][..k] == xs[..k];
      var y := f(xs[k]);
      if y.Err? {
        MapAllErrorPersists(xs, f, k + 1);
        return Err(y.error);
      }
      ys := ys + [y.value];
      k := k + 1;
    }
    assert xs[..|xs|] == xs;
    return Ok(ys);
  }

  /** A raise ends the loop: it is the outcome of the whole. */
  lemma {:induction false} MapAllErrorPersists<A, B>(xs: seq<A>, f: A -> Result<B, PyError>, k: nat)
    requires k <= |xs| && MapAll(xs[..k], f).Err?
    ensures MapAll(xs, f) == MapAll(xs[..k], f)
    decreases |xs| - k
  {
    if k < |xs| {
      assert xs[..k + 1][..k] == xs[..k];
      MapAllErrorPersists(xs, f, k + 1);
    } else {
      assert xs[..k] == xs;
    }
  }

  /** The loop yields one result per item, in order, and fails exactly when some item does. */
  lemma {:induction false} MapAllShape<A, B>(xs: seq<A>, f: A -> Result<B, PyError>)
    ensures MapAll(xs, f).Ok? <==> forall k :: 0 <= k < |xs| ==> f(xs[k]).Ok?
    ensures MapAll(xs, f).Ok? ==>
              |MapAll(xs, f).value| == |xs| && forall k :: 0 <= k < |xs| ==> f(xs[k]) == Ok(MapAll(xs, f).value[k])
  {
    if xs != [] {
      var init := xs[..|xs| - 1];
      MapAllShape(init, f);
      assert forall k :: 0 <= k < |init| ==> init[k] == xs[k];
    }
  }

  function SnowRow(p: Period): Result<PrecipRow, PyError> { RowOf(p, "Snow", "snow_amount", "cm") }

  function RainRow(p: Period): Result<PrecipRow, PyError> { RowOf(p, "Rain", "rain_amount", "mm") }

  /** No item makes `f` raise. */
  ghost predicate AllOk<A, B>(xs: seq<A>, f: A -> Result<B, PyError>) {
    forall k :: 0 <= k < |xs| ==> f(xs[k]).Ok?
  }

  /** Two loops in a row appending to one list; the second runs only when the first did
      not raise. */
  function MapBoth<A, B>(xs: seq<A>, f: A -> Result<B, PyError>, ys: seq<A>, g: A -> Result<B, PyError>): Result<seq<B>, PyError> {
    match MapAll(xs, f)
    case Err(e) => Err(e)
    case Ok(first) =>
      match MapAll(ys, g)
      case Err(e) => Err(e)
      case Ok(second) => Ok(first + second)
  }

  /** The two loops succeed exactly when every item does, and give the first loop's
      results followed by the second's. */
  lemma MapBothShape<A, B>(xs: seq<A>, f: A -> Result<B, PyError>, ys: seq<A>, g: A -> Result<B, PyError>)
    ensures MapBoth(xs, f, ys, g).Ok? <==> AllOk(xs, f) && AllOk(ys, g)
    ensures MapBoth(xs, f, ys, g).Ok? ==>
              var r := MapBoth(xs, f, ys, g).value;
              |r| == |xs| + |ys| &&
              (forall k :: 0 <= k < |xs| ==> f(xs[k]) == Ok(r[k])) &&
              (forall k :: 0 <= k < |ys| ==> g(ys[k]) == Ok(r[|xs| + k]))
  {
    MapAllShape(xs, f);
    MapAllShape(ys, g);
  }

  /** The unsorted table: a row per snow event, then a row per rain event. */
  function PrecipitationOf(data: seq<Period>): Result<seq<PrecipRow>, PyError> {
    MapBoth(Events(data, "snow_amount"), SnowRow, Events(data, "rain_amount"), RainRow)
  }

  /** The precipitation table of the page, sorted by key. */
  method PrecipitationRows(data: seq<Period>) returns (r: Result<seq<PrecipRow>, PyError>)
    ensures PrecipitationOf(data).Err? ==> r == PrecipitationOf(data)
    ensures PrecipitationOf(data).Ok? ==> r == Ok(SortByKey(PrecipitationOf(data).value))
  {
    var snow := AppendAll(Events(data, "snow_amount"), SnowRow);
    if snow.Err? {
      return Err(snow.error);
    }
    var rain := AppendAll(Events(data, "rain_amount"), RainRow);
    if rain.Err? {
      return Err(rain.error);
    }
    return Ok(SortByKey(snow.value + rain.value));
  }

  // ---------------------------------------------------------------------------
  // list.sort(key=...): a stable sort by the sort key
  // ---------------------------------------------------------------------------

  predicate KeyLe(a: PrecipRow, b: PrecipRow) { !LexLess(b.sortKey, a.sortKey) }

  predicate SortedByKey(s: seq<PrecipRow>) {
    forall i, j :: 0 <= i < j < |s| ==> KeyLe(s[i], s[j])
  }

  /** Places `x` after every row whose key is not greater. */
  function Insert(s: seq<PrecipRow>, x: PrecipRow): (r: seq<PrecipRow>)
    ensures multiset(r) == multiset(s) + multiset{x}
    ensures |r| == |s| + 1
  {
    if s == [] then [x]
    else
      assert s == s[..|s| - 1] + [s[|s| - 1]];
      if LexLess(x.sortKey, s[|s| - 1].sortKey) then Insert(s[..|s| - 1], x) + [s[|s| - 1]]
      else s + [x]
  }

  function SortByKey(s: seq<PrecipRow>): (r: seq<PrecipRow>)
    ensures multiset(r) == multiset(s)
  {
    if s == [] then []
    else
      assert s == s[..|s| - 1] + [s[|s| - 1]];
      Insert(SortByKey(s[..|s| - 1]), s[|s| - 1])
  }

  /** The rows of `s` whose key is `key`, in order. */
  function WithKey(s: seq<PrecipRow>, key: string): seq<PrecipRow> {
    if s == [] then []
    else WithKey(s[..|s| - 1], key) + (if s[|s| - 1].sortKey == key then [s[|s| - 1]] else [])
  }

  lemma {:induction false} WithKeyAppend(s: seq<PrecipRow>, t: seq<PrecipRow>, key: string)
    ensures WithKey(s + t, key) == WithKey(s, key) + WithKey(t, key)
    decreases |t|
  {
    if t == [] {
      assert s + t == s;
    } else {
      var t' := t[..|t| - 1];
      assert (s + t)[..|s + t| - 1] == s + t';
      WithKeyAppend(s, t', key);
    }
  }

  /** Insertion keeps the rows ordered by key. */
  lemma {:induction false} InsertSorted(s: seq<PrecipRow>, x: PrecipRow)
    requires SortedByKey(s)
    ensures SortedByKey(Insert(s, x))
  {
    if s != [] {
      var init, last := s[..|s| - 1], s[|s| - 1];
      if LexLess(x.sortKey, last.sortKey) {
        InsertSorted(init, x);
        InsertBelow(init, x, last);
        var r := Insert(init, x) + [last];
        assert r[..|r| - 1] == Insert(init, x);
      } else {
        forall i | 0 <= i < |s| ensures KeyLe(s[i], x) {
          LexLessIrreflexive(last.sortKey);
          LexLeTransitive(s[i].sortKey, last.sortKey, x.sortKey);
        }
      }
    }
  }

  lemma WithKeyOne(x: PrecipRow, key: string)
    ensures WithKey([x], key) == if x.sortKey == key then [x] else []
  {
    assert [x][..0] == [];
  }

  /** Insertion keeps each key's rows in their order, the new row last among its key. */
  lemma {:induction false} InsertWithKey(s: seq<PrecipRow>, x: PrecipRow, key: string)
    ensures WithKey(Insert(s, x), key) == WithKey(s, key) + (if x.sortKey == key then [x] else [])
  {
    if s == [] {
      WithKeyOne(x, key);
    } else {
      var init, last := s[..|s| - 1], s[|s| - 1];
      if LexLess(x.sortKey, last.sortKey) {
        InsertWithKey(init, x, key);
        InsertBeforeLast(init, last, x, key);
      } else {
        WithKeyOne(x, key);
        WithKeyAppend(s, [x], key);
      }
    }
  }

  /** The step of InsertWithKey where `x` goes before the last row: the two rows cannot
      both have the key, since their keys differ. */
  lemma InsertBeforeLast(init: seq<PrecipRow>, last: PrecipRow, x: PrecipRow, key: string)
    requires LexLess(x.sortKey, last.sortKey)
    requires WithKey(Insert(init, x), key) == WithKey(init, key) + (if x.sortKey == key then [x] else [])
    ensures WithKey(Insert(init + [last], x), key) == WithKey(init + [last], key) + (if x.sortKey == key then [x] else [])
  {
    InsertLess(init, last, x);
    LexLessIrreflexive(x.sortKey);
    WithKeyOne(last, key);
    WithKeyAppend(init, [last], key);
    WithKeyAppend(Insert(init, x), [last], key);
    SwapEmpty(WithKey(init, key), if x.sortKey == key then [x] else [], if last.sortKey == key then [last] else []);
  }

  /** A row with a smaller key goes before the last row. */
  lemma InsertLess(init: seq<PrecipRow>, last: PrecipRow, x: PrecipRow)
    requires LexLess(x.sortKey, last.sortKey)
    ensures Insert(init + [last], x) == Insert(init, x) + [last]
  {
    var s := init + [last];
    assert s[..|s| - 1] == init;
  }

  lemma SwapEmpty<T>(a: seq<T>, b: seq<T>, c: seq<T>)
    requires b == [] || c == []
    ensures a + b + c == a + c + b
  {
  }

  /** Inserting below `last` keeps every row at most `last`. */
  lemma InsertBelow(s: seq<PrecipRow>, x: PrecipRow, last: PrecipRow)
    requires forall i :: 0 <= i < |s| ==> KeyLe(s[i], last)
    requires LexLess(x.sortKey, last.sortKey)
    ensures forall i :: 0 <= i < |Insert(s, x)| ==> KeyLe(Insert(s, x)[i], last)
  {
    LexLessAsymmetric(x.sortKey, last.sortKey);
    var r := Insert(s, x);
    forall i | 0 <= i < |r| ensures KeyLe(r[i], last) {
      assert r[i] in multiset(r);
      assert r[i] in multiset(s) + multiset{x};
      if r[i] != x {
        var j :| 0 <= j < |s| && s[j] == r[i];
      }
    }
  }

  /** The key `key` of the row after `last` is smaller, so adding `last` adds no `key` row. */
  lemma WithKeyAfterGreater(s: seq<PrecipRow>, key: string, last: PrecipRow)
    requires last.sortKey != key
    ensures WithKey(s + [last], key) == WithKey(s, key)
  {
    assert (s + [last])[..|s|] == s;
  }

  /** The sort orders the rows by key, keeps every row, and keeps the rows of each key in
      their original order (stability: snow before rain on equal keys). */
  lemma {:induction false} SortByKeyProps(s: seq<PrecipRow>, key: string)
    ensures SortedByKey(SortByKey(s))
    ensures multiset(SortByKey(s)) == multiset(s)
    ensures WithKey(SortByKey(s), key) == WithKey(s, key)
  {
    if s != [] {
      var init, last := s[..|s| - 1], s[|s| - 1];
      SortByKeyProps(init, key);
      InsertSorted(SortByKey(init), last);
      InsertWithKey(SortByKey(init), last, key);
    }
  }

  /** Rows of one date are ordered by their period index when it is below 1000. */
  lemma SameDateOrder(date: string, i: int, j: int)
    requires 0 <= i < 1000 && 0 <= j < 1000
    ensures LexLess(date + "-" + Format03d(i), date + "-" + Format03d(j)) <==> i < j
  {
    LexLessCommonPrefix(date + "-", Format03d(i), Format03d(j));
    PaddedOrder(i, j);
  }

  /** The period index a sort key is built from: 0 when the field is absent. */
  function PeriodIndex(p: Period): Json { Get(p, "period_index", JInt(0)) }

  /** Two periods of one date, with indices in 0..999 (0 standing in for a missing one),
      have sort keys that order as their indices, so same-day rows sort by period. */
  lemma SortKeyOrder(p: Period, q: Period)
    requires Show(Get(p, "date", JStr(""))) == Show(Get(q, "date", JStr("")))
    requires PeriodIndex(p).JInt? && 0 <= PeriodIndex(p).i < 1000
    requires PeriodIndex(q).JInt? && 0 <= PeriodIndex(q).i < 1000
    ensures SortKey(p).Ok? && SortKey(q).Ok?
    ensures LexLess(SortKey(p).value, SortKey(q).value) <==> PeriodIndex(p).i < PeriodIndex(q).i
  {
    var date := Show(Get(p, "date", JStr("")));
    assert SortKey(p) == Ok(date + "-" + Format03d(PeriodIndex(p).i));
    assert SortKey(q) == Ok(date + "-" + Format03d(PeriodIndex(q).i));
    SameDateOrder(date, PeriodIndex(p).i, PeriodIndex(q).i);
  }

  /** Building the table fails exactly when some event's row does, which is when its sort
      key does. */
  lemma {:induction false} PrecipitationFails(data: seq<Period>)
    ensures PrecipitationOf(data).Ok? <==>
              AllOk(Events(data, "snow_amount"), SnowRow) && AllOk(Events(data, "rain_amount"), RainRow)
  {
    MapBothShape(Events(data, "snow_amount"), SnowRow, Events(data, "rain_amount"), RainRow);
  }

  /** The table holds a row per snow event, then a row per rain event, before sorting. */
  lemma {:induction false} PrecipitationShape(data: seq<Period>)
    requires PrecipitationOf(data).Ok?
    ensures RowsInOrder(Events(data, "snow_amount"), Events(data, "rain_amount"), PrecipitationOf(data).value)
  {
    var snow := Events(data, "snow_amount");
    var rain := Events(data, "rain_amount");
    var r := PrecipitationOf(data).value;
    assert PrecipitationOf(data) == MapBoth(snow, SnowRow, rain, RainRow);
    RowsOfEvents(snow, rain, r);
  }

  /** `r` holds a row per snow event, in order, then a row per rain event, in order. */
  predicate RowsInOrder(snow: seq<Period>, rain: seq<Period>, r: seq<PrecipRow>) {
    |r| == |snow| + |rain| &&
    (forall k :: 0 <= k < |snow| ==> SnowRow(snow[k]) == Ok(r[k])) &&
    (forall k :: 0 <= k < |rain| ==> RainRow(rain[k]) == Ok(r[|snow| + k]))
  }

  lemma RowsOfEvents(snow: seq<Period>, rain: seq<Period>, r: seq<PrecipRow>)
    requires MapBoth(snow, SnowRow, rain, RainRow) == Ok(r)
    ensures RowsInOrder(snow, rain, r)
  {
    MapBothShape(snow, SnowRow, rain, RainRow);
  }

  // ---------------------------------------------------------------------------
  // The forecast page: the hourly table
  // ---------------------------------------------------------------------------

  /** The page shows at most this many periods. */
  const HourlyLimit: nat := 40

  datatype HourlyRow = HourlyRow(date: string, time: string, weather: string, snow: string, rain: string,
                                 temperature: string, wind: string, humidity: string)

  /** A snow or rain cell: the dash when the field is absent or the dash, else the text
      with the unit appended; a value that is no string raises TypeError on the append. */
  function Cell(p: Period, field: string, unit: string): (r: Result<string, PyError>)
    ensures Get(p, field, JStr(NoValue)) == JStr(NoValue) ==> r == Ok(NoValue)
    ensures r.Err? <==> !Get(p, field, JStr(NoValue)).JStr?
    ensures Get(p, field, JStr(NoValue)) != JStr(NoValue) && field in p && p[field].JStr? ==> r == Ok(p[field].s + unit)
  {
    var v := Get(p, field, JStr(NoValue));
    if v == JStr(NoValue) then Ok(NoValue)
    else
      match v
      case JStr(t) => Ok(t + unit)
      case _ => Err(TypeError)
  }

  function HourlyRowOf(p: Period): (r: Result<HourlyRow, PyError>)
    ensures r.Err? <==> !Get(p, "snow_amount", JStr(NoValue)).JStr? || !Get(p, "rain_amount", JStr(NoValue)).JStr?
    ensures r.Ok? ==> Ok(r.value.snow) == Cell(p, "snow_amount", "cm") && Ok(r.value.rain) == Cell(p, "rain_amount", "mm")
  {
    match Cell(p, "snow_amount", "cm")
    case Err(e) => Err(e)
    case Ok(snow) =>
      match Cell(p, "rain_amount", "mm")
      case Err(e) => Err(e)
      case Ok(rain) =>
        Ok(HourlyRow(Show(Get(p, "day_name", JStr(""))) + " " + Show(Get(p, "day_num", JStr(""))) + " Nov",
                     Show(Get(p, "time_period", JStr(""))), Show(Get(p, "weather_phrase", JStr(""))),
                     snow, rain, Show(Get(p, "temperature_max", JStr(NoValue))) + "°",
                     Show(Get(p, "wind_speed_display", JStr(""))) + " " + Show(Get(p, "wind_direction", JStr(""))),
                     Show(Get(p, "humidity", JStr(""))) + "%"))
  }

  function Shown(data: seq<Period>): seq<Period> {
    data[..if |data| < HourlyLimit then |data| else HourlyLimit]
  }

  /** The hourly table: at most forty rows, one for each of the first forty periods in
      order; it fails exactly when one of those periods has a snow or rain value that is
      no string. */
  function HourlyTable(data: seq<Period>): (r: Result<seq<HourlyRow>, PyError>)
    ensures r.Ok? <==> forall k :: 0 <= k < |data| && k < HourlyLimit ==> HourlyRowOf(data[k]).Ok?
    ensures r.Ok? ==>
              |r.value| == (if |data| < HourlyLimit then |data| else HourlyLimit) &&
              forall k :: 0 <= k < |r.value| ==> HourlyRowOf(data[k]) == Ok(r.value[k])
  {
    var shown := Shown(data);
    MapAllShape(shown, HourlyRowOf);
    assert forall k :: 0 <= k < |shown| ==> shown[k] == data[k];
    MapAll(shown, HourlyRowOf)
  }

  method HourlyRows(data: seq<Period>) returns (r: Result<seq<HourlyRow>, PyError>)
    ensures r == HourlyTable(data)
  {
    r := AppendAll(Shown(data), HourlyRowOf);
  }



  // ---------------------------------------------------------------------------
  // The cached forecast: the latest file, its age text and its forecast body
  // ---------------------------------------------------------------------------

  /** A generated forecast file: its modification time and its text. The time is the
      file's local wall-clock reading in seconds (datetime.fromtimestamp of st_mtime), and
      the `now` the operations below take is datetime.now(), the same local clock; both are
      naive, so their difference is wall-clock seconds, not elapsed seconds, across a
      change of UTC offset. */
  datatype CacheFile = CacheFile(mtime: int, content: string)

  /** Sorting by modification time, newest first, is stable: the first of the newest files. */
  function LatestIndex(files: seq<CacheFile>): (r: nat)
    requires files != []
    ensures r < |files|
    ensures forall j :: 0 <= j < |files| ==> files[j].mtime <= files[r].mtime
    ensures forall j :: 0 <= j < r ==> files[j].mtime < files[r].mtime
  {
    if |files| == 1 then 0
    else
      var i := LatestIndex(files[..|files| - 1]);
      if files[|files| - 1].mtime > files[i].mtime then |files| - 1 else i
  }

  /** Python's int() of a quotient: truncation toward zero. */
  function TruncDiv(a: int, b: int): (q: int)
    requires b > 0
    ensures a >= 0 ==> q == a / b
    ensures a < 0 ==> q == -((-a) / b)
  {
    if a >= 0 then a / b else -((-a) / b)
  }

  /** How old the newest forecast is, as the page's subtitle says it. */
  function AgeText(minutes: int): (r: string)
    ensures |r| > 4 && r[|r| - 4..] == " ago"
  {
    if minutes < 1 then "< 1 min ago"
    else if minutes < 60 then IntStr(minutes) + " min ago"
    else IntStr(TruncDiv(minutes, 60)) + "h " + IntStr(minutes % 60) + "m ago"
  }

  /** get_cache_timestamp_info: no files give the empty text, else the newest file's age,
      `now` minus its mtime as local wall-clock seconds. */
  function CacheTimestampInfo(files: seq<CacheFile>, now: int): (r: string)
    ensures r == "" <==> files == []
    ensures files != [] ==>
              var minutes := TruncDiv(now - files[LatestIndex(files)].mtime, 60);
              ReadAge(r) == if minutes < 1 then 0 else minutes
  {
    if files == [] then ""
    else
      var minutes := TruncDiv(now - files[LatestIndex(files)].mtime, 60);
      ReadAgeText(minutes);
      AgeText(minutes)
  }

  /** Reads an age text back: the minutes it stands for, 0 for "< 1 min ago". */
  function ReadAge(t: string): int {
    var d := DigitRun(t);
    DigitRunDigits(t);
    ReadRest(DigitsValue(t[..d]), t[d..])
  }

  /** The number at the start of `u`. */
  function ReadNumber(u: string): nat {
    DigitRunDigits(u);
    DigitsValue(u[..DigitRun(u)])
  }

  function ReadRest(n: nat, rest: string): int {
    if rest == " min ago" then n
    else if StartsWith(rest, "h ") then n * 60 + ReadNumber(rest[2..])
    else 0
  }

  lemma {:induction false} DigitRunDigits(t: string)
    ensures DigitRun(t) <= |t|
    ensures forall k :: 0 <= k < DigitRun(t) ==> IsDigit(t[k])
  {
    if t != [] && IsDigit(t[0]) {
      DigitRunDigits(t[1..]);
    }
  }

  /** Digits followed by a non-digit read back as the number. */
  lemma ReadDecimal(n: nat, x: string)
    requires x == [] || !IsDigit(x[0])
    ensures var t := Decimal(n) + x;
            DigitRun(t) == |Decimal(n)| && t[..DigitRun(t)] == Decimal(n) && t[DigitRun(t)..] == x &&
            DigitsValue(t[..DigitRun(t)]) == n
  {
    DigitRunOf(Decimal(n), x);
    DecimalValue(n);
    var t := Decimal(n) + x;
    assert t[..|Decimal(n)|] == Decimal(n);
  }

  /** A number followed by the rest of an age text reads as that number and that rest. */
  lemma ReadAgeOf(n: nat, x: string)
    requires x == [] || !IsDigit(x[0])
    ensures ReadAge(Decimal(n) + x) == ReadRest(n, x)
  {
    ReadDecimal(n, x);
  }

  /** The text after the hour count reads back as hours and minutes. */
  lemma ReadRestHours(h: nat, m: nat)
    ensures ReadRest(h, "h " + Decimal(m) + "m ago") == h * 60 + m
  {
    var tail := "h " + Decimal(m) + "m ago";
    assert tail[..2] == "h ";
    assert tail[2..] == Decimal(m) + "m ago";
    ReadDecimal(m, "m ago");
  }

  lemma ReadMinutes(m: int)
    requires 1 <= m < 60
    ensures ReadAge(AgeText(m)) == m
  {
    assert AgeText(m) == Decimal(m) + " min ago";
    ReadAgeOf(m, " min ago");
  }

  lemma ReadHours(minutes: int)
    requires minutes >= 60
    ensures ReadAge(AgeText(minutes)) == minutes
  {
    var h, m := minutes / 60, minutes % 60;
    var tail := "h " + Decimal(m) + "m ago";
    HoursText(minutes);
    ReadAgeOf(h, tail);
    ReadRestHours(h, m);
  }

  /** An age of an hour or more is written as the hours, then the rest of the text. */
  lemma HoursText(minutes: int)
    requires minutes >= 60
    ensures AgeText(minutes) == Decimal(minutes / 60) + ("h " + Decimal(minutes % 60) + "m ago")
  {
    assert TruncDiv(minutes, 60) == minutes / 60;
    assert IntStr(minutes / 60) == Decimal(minutes / 60);
    assert IntStr(minutes % 60) == Decimal(minutes % 60);
  }

  /** The age text says exactly how many minutes old the forecast is. */
  lemma ReadAgeText(minutes: int)
    ensures ReadAge(AgeText(minutes)) == if minutes < 1 then 0 else minutes
  {
    if minutes < 1 {
      assert AgeText(minutes) == "< 1 min ago";
      assert DigitRun("< 1 min ago") == 0;
    } else if minutes < 60 {
      ReadMinutes(minutes);
    } else {
      ReadHours(minutes);
    }
  }

  /** Different ages of a minute or more read differently. */
  lemma AgeTextInjective(a: int, b: int)
    requires a >= 1 && b >= 1 && AgeText(a) == AgeText(b)
    ensures a == b
  {
    ReadAgeText(a);
    ReadAgeText(b);
  }

  const ForecastOpen: string := "<div class=\"forecast\">"
  const DivClose: string := "</div>"

  /** The forecast body of a cached page: the text between the forecast div's opening
      tag and the first closing tag after it, with the whitespace at both ends removed,
      when that text is not empty; otherwise the whole content. */
  function ForecastBody(content: string): (r: string)
    ensures !Contains(content, ForecastOpen) ==> r == content
    ensures Contains(content, ForecastOpen) ==>
              var start := Find(content, ForecastOpen) + |ForecastOpen|;
              var end := FindFrom(content, DivClose, start);
              (end <= start ==> r == content) &&
              (end > start ==> IsStripOf(r, content[start..end], IsPySpace))
    ensures r == content || !Contains(r, DivClose)
  {
    if Contains(content, ForecastOpen) then
      var start := Find(content, ForecastOpen) + |ForecastOpen|;
      var end := FindFrom(content, DivClose, start);
      if end > start then CutBody(content, start, end); ForecastCut(content)
      else ForecastCut(content)
    else ForecastCut(content)
  }

  /** The computation of ForecastBody, without its contract. */
  function ForecastCut(content: string): string {
    if Contains(content, ForecastOpen) then
      var start := Find(content, ForecastOpen) + |ForecastOpen|;
      var end := FindFrom(content, DivClose, start);
      if end > start then Strip(content[start..end]) else content
    else content
  }

  /** The stripped text between `start` and the first "</div>" after it holds no
      "</div>" and is that text with its edge whitespace removed. */
  lemma CutBody(content: string, start: nat, end: int)
    requires start <= |content| && end == FindFrom(content, DivClose, start) && end > start
    ensures IsStripOf(Strip(content[start..end]), content[start..end], IsPySpace)
    ensures !Contains(Strip(content[start..end]), DivClose)
  {
    var body := Strip(content[start..end]);
    var i :| IsSliceAt(body, content[start..end], i);
    NoMatchInside(content, DivClose, start, end, body, i);
    StripEdges(content[start..end], IsPySpace);
  }

  /** A piece of a stretch of `s` where `pat` does not start holds no `pat`. */
  lemma NoMatchInside(s: string, pat: string, lo: int, hi: int, body: string, i: int)
    requires 0 <= lo <= hi <= |s| && pat != []
    requires forall q :: lo <= q < hi ==> !IsAt(s, pat, q)
    requires IsSliceAt(body, s[lo..hi], i)
    ensures !Contains(body, pat)
  {
    forall j | 0 <= j <= |body| ensures !IsAt(body, pat, j) {
      if j + |pat| <= |body| {
        var w := s[lo..hi];
        var q := lo + i + j;
        assert body == w[i..i + |body|];
        forall n | q <= n < q + |pat| ensures s[n] == body[n - lo - i] {
          assert body[n - lo - i] == w[n - lo];
        }
        assert s[q..q + |pat|] == body[j..j + |pat|];
        assert !IsAt(s, pat, q);
      }
    }
  }

  /** A page whose forecast div wraps a body without edge whitespace gives that body back,
      provided no '<' comes before the div and the first "</div>" after the body is the
      one that closes it; an empty body gives the whole page. */
  lemma ForecastBodyOfPage(prefix: string, body: string, rest: string)
    requires '<' !in prefix
    requires body != "" ==> !IsPySpace(body[0]) && !IsPySpace(body[|body| - 1])
    requires forall j :: 0 <= j < |body| ==> !IsAt(body + DivClose, DivClose, j)
    ensures var page := prefix + ForecastOpen + body + DivClose + rest;
            ForecastBody(page) == if body == "" then page else body
  {
    var page := prefix + ForecastOpen + body + DivClose + rest;
    PageTags(prefix, body, rest);
    ForecastBodyAt(page, |prefix| + |ForecastOpen|, body);
  }

  /** A body found between the end of the first opening tag and the first closing tag,
      with no whitespace at either end, is the forecast body; an empty one gives the whole content. */
  lemma ForecastBodyAt(content: string, start: nat, body: string)
    requires Contains(content, ForecastOpen) && start == Find(content, ForecastOpen) + |ForecastOpen|
    requires start + |body| <= |content| && FindFrom(content, DivClose, start) == start + |body|
    requires content[start..start + |body|] == body
    requires body != "" ==> !IsPySpace(body[0]) && !IsPySpace(body[|body| - 1])
    ensures ForecastBody(content) == if body == "" then content else body
  {
    ForecastCutAt(content, start, body);
  }

  lemma ForecastCutAt(content: string, start: nat, body: string)
    requires Contains(content, ForecastOpen) && start == Find(content, ForecastOpen) + |ForecastOpen|
    requires start + |body| <= |content| && FindFrom(content, DivClose, start) == start + |body|
    requires content[start..start + |body|] == body
    requires body != "" ==> !IsPySpace(body[0]) && !IsPySpace(body[|body| - 1])
    ensures ForecastCut(content) == if body == "" then content else body
  {
    var end := FindFrom(content, DivClose, start);
    assert end == start + |body|;
    if body != "" {
      assert content[start..end] == body;
      StripNothing(body, IsPySpace);
      assert ForecastCut(content) == Strip(body);
    }
  }

  /** Where the two searches stop on such a page, and what lies between. */
  lemma PageTags(prefix: string, body: string, rest: string)
    requires '<' !in prefix
    requires forall j :: 0 <= j < |body| ==> !IsAt(body + DivClose, DivClose, j)
    ensures var page := prefix + ForecastOpen + body + DivClose + rest;
            var start := |prefix| + |ForecastOpen|;
            Contains(page, ForecastOpen) && start == Find(page, ForecastOpen) + |ForecastOpen| &&
            start + |body| <= |page| && FindFrom(page, DivClose, start) == start + |body| &&
            page[start..start + |body|] == body
  {
    var page := prefix + ForecastOpen + body + DivClose + rest;
    PageSlices(prefix, body, rest);
    TagsAt(page, prefix, body);
  }

  /** The pieces of such a page, read back by slicing. */
  lemma PageSlices(prefix: string, body: string, rest: string)
    ensures var page := prefix + ForecastOpen + body + DivClose + rest;
            var start := |prefix| + |ForecastOpen|;
            start + |body| + |DivClose| <= |page| && IsAt(page, ForecastOpen, |prefix|) &&
            page[..|prefix|] == prefix &&
            page[start..start + |body| + |DivClose|] == body + DivClose
  {
    var page := prefix + ForecastOpen + body + DivClose + rest;
    var start := |prefix| + |ForecastOpen|;
    assert page == (prefix + ForecastOpen) + (body + DivClose) + rest;
    assert page[|prefix|..start] == ForecastOpen;
  }

  /** The searches on a page whose pieces are known by slicing. */
  lemma TagsAt(page: string, prefix: string, body: string)
    requires '<' !in prefix && IsAt(page, ForecastOpen, |prefix|) && page[..|prefix|] == prefix
    requires var start := |prefix| + |ForecastOpen|;
             start + |body| + |DivClose| <= |page| &&
             page[start..start + |body| + |DivClose|] == body + DivClose
    requires forall j :: 0 <= j < |body| ==> !IsAt(body + DivClose, DivClose, j)
    ensures var start := |prefix| + |ForecastOpen|;
            Contains(page, ForecastOpen) && start == Find(page, ForecastOpen) + |ForecastOpen| &&
            FindFrom(page, DivClose, start) == start + |body| &&
            page[start..start + |body|] == body
  {
    var start := |prefix| + |ForecastOpen|;
    OpenFoundAfter(page, prefix);
    CloseFoundAfter(page, body, start);
  }

  /** With no '<' in front of it, the forecast div's opening tag is found where it starts. */
  lemma OpenFoundAfter(page: string, prefix: string)
    requires '<' !in prefix && IsAt(page, ForecastOpen, |prefix|) && page[..|prefix|] == prefix
    ensures Contains(page, ForecastOpen) && Find(page, ForecastOpen) == |prefix|
  {
    forall q | 0 <= q < |prefix| ensures !IsAt(page, ForecastOpen, q) {
      assert page[q] == prefix[q] != '<';
      if q + |ForecastOpen| <= |page| {
        assert page[q..q + |ForecastOpen|][0] == page[q];
      }
    }
    FirstAt(page, ForecastOpen, 0, |prefix|);
  }

  /** A search from `lo` stops at the first occurrence at or after `lo`. */
  lemma FirstAt(s: string, pat: string, lo: nat, e: int)
    requires lo <= e && IsAt(s, pat, e)
    requires forall q :: lo <= q < e ==> !IsAt(s, pat, q)
    ensures FindFrom(s, pat, lo) == e
  {
  }

  /** The first "</div>" at or after the body is the one right after it. */
  lemma CloseFoundAfter(page: string, body: string, lo: nat)
    requires lo + |body| + |DivClose| <= |page| && page[lo..lo + |body| + |DivClose|] == body + DivClose
    requires forall j :: 0 <= j < |body| ==> !IsAt(body + DivClose, DivClose, j)
    ensures FindFrom(page, DivClose, lo) == lo + |body|
    ensures page[lo..lo + |body|] == body
  {
    var w := body + DivClose;
    var e := lo + |body|;
    assert page[lo..lo + |body|] == page[lo..lo + |w|][..|body|];
    assert page[e..e + |DivClose|] == w[|body|..] == DivClose;
    NoCloseInside(page, w, lo, |body|);
    FirstAt(page, DivClose, lo, e);
  }

  /** No "</div>" starts in the first `n` characters of a stretch `w` of the page that
      holds none there itself. */
  lemma NoCloseInside(page: string, w: string, lo: nat, n: nat)
    requires lo + |w| <= |page| && page[lo..lo + |w|] == w && n + |DivClose| <= |w| + 1
    requires forall j :: 0 <= j < n ==> !IsAt(w, DivClose, j)
    ensures forall q :: lo <= q < lo + n ==> !IsAt(page, DivClose, q)
  {
    forall q | lo <= q < lo + n ensures !IsAt(page, DivClose, q) {
      var j := q - lo;
      assert j + |DivClose| <= |w|;
      var a, b := page[q..q + |DivClose|], w[j..j + |DivClose|];
      forall m | 0 <= m < |DivClose| ensures a[m] == b[m] {
        assert page[lo..lo + |w|][j + m] == page[q + m];
      }
      assert a == b;
      assert !IsAt(w, DivClose, j);
    }
  }

  /** get_recent_cached_forecast: the newest file's body when it is under an hour old, the
      age being `now` minus its mtime as local wall-clock seconds. */
  function RecentCachedForecast(files: seq<CacheFile>, now: int): (r: Option<string>)
    ensures r.Some? <==> files != [] && now - files[LatestIndex(files)].mtime < 3600
    ensures r.Some? ==> r.value == ForecastBody(files[LatestIndex(files)].content)
  {
    if files == [] then None
    else
      var latest := files[LatestIndex(files)];
      if now - latest.mtime < 3600 then Some(ForecastBody(latest.content)) else None
  }
}
