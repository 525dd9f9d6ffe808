/** The pruner's reading of a page's configuration template
    (enumeratePagePrunerConfig, pruner/main.go:99-153): the template's
    parameters, the two required ones, and the two cut-off times. */
module PageConfig {
  import opened Common
  import opened GoStrings

  /** The part of the template regex after the template name: optional
      space and every `|...` parameter, as capture group 1. */
  const TemplateExpression: string := "\\s*?((?:\\|.*\\s*?)*)"

  /** templateRegex's source for the configured template name (pruner/main.go:58). */
  function TemplatePattern(configTemplate: string): (p: string)
    ensures HasPrefix(p, "{{" + QuoteMeta(configTemplate))
  {
    var p := "{{" + QuoteMeta(configTemplate) + TemplateExpression + "}}";
    assert p[..|"{{" + QuoteMeta(configTemplate)|] == "{{" + QuoteMeta(configTemplate);
    p
  }

  /** Instants as whole numbers of a fixed unit; time.Time{} is ZeroTime. */
  type Time = int

  const ZeroTime: Time := 0

  /** The clock and the duration parser the function uses: one reading of
      the current time, tparse.AddDuration (a time, and whether the duration
      parsed; nothing is known of the time when it did not), and the time
      two calendar months before `now` (time.Now().AddDate(0, -2, 0)). */
  datatype Clock = Clock(now: Time, addDuration: (Time, string) -> (Time, bool), twoMonthsEarlier: Time)

  /** Why a configuration is rejected. The last two are runtime panics of
      the source (a slice or index out of range). */
  datatype ConfigError =
    | NoTemplate
    | MissingParameter(name: string)
    | InvalidInactivity(value: string)
    | EmptyParameterList
    | ParameterWithoutValue(piece: string)

  predicate IsPanic(e: ConfigError)
  {
    e.EmptyParameterList? || e.ParameterWithoutValue?
  }

  /** The five results of enumeratePagePrunerConfig: block cut-off,
      inactivity cut-off, format name, all parameters, and the error. */
  datatype ConfigReturn = ConfigReturn(
    blockStamp: Time,
    inactivityStamp: Time,
    format: string,
    parameters: map<string, string>,
    err: Option<ConfigError>)

  /** What every rejection returns besides its error. */
  function Rejected(e: ConfigError): (r: ConfigReturn)
    ensures r.err == Some(e) && r.blockStamp == ZeroTime && r.inactivityStamp == ZeroTime
    ensures r.format == "none" && r.parameters == map[]
  {
    ConfigReturn(ZeroTime, ZeroTime, "none", map[], Some(e))
  }

  /** A Go map lookup: the value, or "" when the key is absent. */
  function Param(parameters: map<string, string>, key: string): string
  {
    if key in parameters then parameters[key] else ""
  }

  // ---------------------------------------------------------------------
  // `|key = value` parameters
  // ---------------------------------------------------------------------

  /** The parameters from the pieces in order, each piece split at `=` into
      a trimmed key and value; a later key overwrites an earlier one, and a
      piece without `=` is an error. */
  function ParseParameters(pieces: seq<string>): Result<map<string, string>, ConfigError>
    decreases |pieces|
  {
    if pieces == [] then Ok(map[])
    else
      match ParseParameters(pieces[..|pieces| - 1])
      case Err(e) => Err(e)
      case Ok(parameters) =>
        var piece := pieces[|pieces| - 1];
        var components := Split(piece, '=');
        if |components| < 2 then Err(ParameterWithoutValue(piece))
        else Ok(parameters[TrimSpace(components[0]) := TrimSpace(components[1])])
  }

  /** Reference: the value the last piece with the given key gives it. */
  function LastValue(pieces: seq<string>, key: string): Option<string>
    decreases |pieces|
  {
    if pieces == [] then None
    else
      var components := Split(pieces[|pieces| - 1], '=');
      if |components| >= 2 && TrimSpace(components[0]) == key then Some(TrimSpace(components[1]))
      else LastValue(pieces[..|pieces| - 1], key)
  }

  /** Parsing fails exactly when some piece has no `=`; otherwise every key
      holds the value of its last occurrence and no other key is present. */
  lemma ParametersAreLastValues(pieces: seq<string>)
    ensures ParseParameters(pieces).Err? <==> exists k :: 0 <= k < |pieces| && '=' !in pieces[k]
    ensures ParseParameters(pieces).Ok? ==>
      forall key :: (key in ParseParameters(pieces).value <==> LastValue(pieces, key).Some?)
        && (key in ParseParameters(pieces).value ==> ParseParameters(pieces).value[key] == LastValue(pieces, key).value)
  {
    ParseFailsWithoutEquals(pieces);
    ParsedValuesAreLast(pieces);
  }

  lemma {:induction false} ParseFailsWithoutEquals(pieces: seq<string>)
    ensures ParseParameters(pieces).Err? <==> MissingEquals(pieces)
    decreases |pieces|
  {
    if pieces != [] {
      ParseFailsWithoutEquals(pieces[..|pieces| - 1]);
      SplitCount(pieces[|pieces| - 1], '=');
      MissingEqualsStep(pieces);
    }
  }

  /** Some piece has no `=`. */
  predicate MissingEquals(pieces: seq<string>)
  {
    exists k :: 0 <= k < |pieces| && '=' !in pieces[k]
  }

  lemma MissingEqualsStep(pieces: seq<string>)
    requires pieces != []
    ensures MissingEquals(pieces) <==> MissingEquals(pieces[..|pieces| - 1]) || '=' !in pieces[|pieces| - 1]
  {
    var front := pieces[..|pieces| - 1];
    if MissingEquals(front) {
      var k :| 0 <= k < |front| && '=' !in front[k];
      assert pieces[k] == front[k];
    }
    if MissingEquals(pieces) {
      var k :| 0 <= k < |pieces| && '=' !in pieces[k];
      if k < |front| {
        assert front[k] == pieces[k];
      }
    }
  }

  lemma {:induction false} ParsedValuesAreLast(pieces: seq<string>)
    ensures ParseParameters(pieces).Ok? ==>
      forall key :: (key in ParseParameters(pieces).value <==> LastValue(pieces, key).Some?)
        && (key in ParseParameters(pieces).value ==> ParseParameters(pieces).value[key] == LastValue(pieces, key).value)
    decreases |pieces|
  {
    if pieces != [] {
      ParsedValuesAreLast(pieces[..|pieces| - 1]);
    }
  }

  /** A split has a second piece exactly when the separator occurs. */
  lemma SplitCount(s: string, sep: char)
    ensures |Split(s, sep)| >= 2 <==> sep in s
  {
    if sep in s {
      var i := IndexOf(s, sep);
      assert Split(s, sep) == [s[..i]] + Split(s[i + 1..], sep);
    }
  }

  /** The loop of pruner/main.go:110-114 over the text of capture group 1. */
  method ParseParameterList(group: string) returns (r: Result<map<string, string>, ConfigError>)
    ensures group == [] ==> r == Err(EmptyParameterList)
    ensures group != [] ==> r == ParseParameters(Split(group[1..], '|'))
  {
    if group == [] {
      return Err(EmptyParameterList);
    }
    var parameters: map<string, string> := map[];
    var paramStrings := Split(group[1..], '|');
    var i := 0;
    while i < |paramStrings|
      invariant 0 <= i <= |paramStrings|
      invariant ParseParameters(paramStrings[..i]) == Ok(parameters)
    {
      var paramString := paramStrings[i];
      var paramComponents := Split(paramString, '=');
      ParseStep(paramStrings, i);
      if |paramComponents| < 2 {
        ParseFailurePersists(paramStrings, i + 1);
        return Err(ParameterWithoutValue(paramString));
      }
      parameters := parameters[TrimSpace(paramComponents[0]) := TrimSpace(paramComponents[1])];
      i := i + 1;
    }
    assert paramStrings[..|paramStrings|] == paramStrings;
    return Ok(parameters);
  }

  /** Parsing one more piece: an error without `=`, else one more entry. */
  lemma ParseStep(pieces: seq<string>, i: nat)
    requires i < |pieces| && ParseParameters(pieces[..i]).Ok?
    ensures var components := Split(pieces[i], '=');
            ParseParameters(pieces[..i + 1])
            == if |components| < 2 then Err(ParameterWithoutValue(pieces[i]))
               else Ok(ParseParameters(pieces[..i]).value[TrimSpace(components[0]) := TrimSpace(components[1])])
  {
    assert pieces[..i + 1][..i] == pieces[..i];
  }

  lemma {:induction false} ParseFailurePersists(pieces: seq<string>, k: nat)
    requires k <= |pieces| && ParseParameters(pieces[..k]).Err?
    ensures ParseParameters(pieces) == ParseParameters(pieces[..k])
    decreases |pieces| - k
  {
    if k < |pieces| {
      assert pieces[..k + 1][..k] == pieces[..k];
      ParseFailurePersists(pieces, k + 1);
    } else {
      assert pieces[..k] == pieces;
    }
  }

  // ---------------------------------------------------------------------
  // enumeratePagePrunerConfig
  // ---------------------------------------------------------------------

  const RequiredParameters: seq<string> := ["inactivity", "format"]

  /** The first required parameter that is missing, if any. */
  function FirstMissing(parameters: map<string, string>, required: seq<string>): (r: Option<string>)
    ensures r.None? <==> forall k :: 0 <= k < |required| ==> required[k] in parameters
    ensures r.Some? ==> r.value in required && r.value !in parameters
  {
    if required == [] then None
    else if required[0] !in parameters then Some(required[0])
    else FirstMissing(parameters, required[1..])
  }

  /** The offset `value` back from `now`, spaces removed, as tparse reads it. */
  function Before(clock: Clock, value: string): (Time, bool)
  {
    clock.addDuration(clock.now, "-" + ReplaceAll(value, " ", ""))
  }

  /** The block cut-off before defaulting: `now` for "0", the parsed offset
      for any other non-empty value (whatever tparse returns), and the zero
      time when the parameter is empty or absent. */
  function IndeffedStamp(parameters: map<string, string>, clock: Clock): Time
  {
    var indeffed := Param(parameters, "indeffed");
    if indeffed == "" then ZeroTime
    else if indeffed == "0" then clock.now
    else Before(clock, indeffed).0
  }

  /** The block cut-off: a zero time defaults to two months before now. */
  function BlockStamp(parameters: map<string, string>, clock: Clock): (t: Time)
    ensures t == ZeroTime ==> clock.twoMonthsEarlier == ZeroTime
  {
    var t := IndeffedStamp(parameters, clock);
    if t == ZeroTime then clock.twoMonthsEarlier else t
  }

  /** The result for parameters that include both required ones. */
  function Accepted(parameters: map<string, string>, clock: Clock): (r: ConfigReturn)
    requires "inactivity" in parameters && "format" in parameters
    ensures r.err.Some? ==> r == Rejected(r.err.value)
  {
    var (inactivity, ok) := Before(clock, parameters["inactivity"]);
    if !ok then Rejected(InvalidInactivity(parameters["inactivity"]))
    else ConfigReturn(BlockStamp(parameters, clock), inactivity, parameters["format"], parameters, None)
  }

  /** The whole of enumeratePagePrunerConfig, on the template regex's first
      match (no groups when it does not match). */
  function Configuration(templateMatch: seq<string>, clock: Clock): (r: ConfigReturn)
    ensures r.err.Some? ==> r == Rejected(r.err.value)
  {
    if |templateMatch| == 0 then Rejected(NoTemplate)
    else if |templateMatch| < 2 || templateMatch[1] == [] then Rejected(EmptyParameterList)
    else
      var parsed := ParseParameters(Split(templateMatch[1][1..], '|'));
      if parsed.Err? then Rejected(parsed.error)
      else
        var missing := FirstMissing(parsed.value, RequiredParameters);
        if missing.Some? then Rejected(MissingParameter(missing.value))
        else
          assert RequiredParameters[0] in parsed.value && RequiredParameters[1] in parsed.value;
          Accepted(parsed.value, clock)
  }

  /** enumeratePagePrunerConfig (pruner/main.go:99-153), with the page's
      template match given. */
  method EnumeratePagePrunerConfig(templateMatch: seq<string>, clock: Clock) returns (ret: ConfigReturn)
    ensures ret == Configuration(templateMatch, clock)
  {
    if |templateMatch| == 0 {
      return Rejected(NoTemplate);
    }
    if |templateMatch| < 2 {
      return Rejected(EmptyParameterList);
    }
    var parsed := ParseParameterList(templateMatch[1]);
    if parsed.Err? {
      return Rejected(parsed.error);
    }
    var parameters := parsed.value;
    var missing := CheckRequired(parameters);
    if missing.Some? {
      return Rejected(MissingParameter(missing.value));
    }
    assert RequiredParameters[0] in parameters && RequiredParameters[1] in parameters;
    ret := ReadStamps(parameters, clock);
  }

  /** The loop over the required parameters (pruner/main.go:117-121): the
      first one absent, if any. */
  method CheckRequired(parameters: map<string, string>) returns (missing: Option<string>)
    ensures missing == FirstMissing(parameters, RequiredParameters)
  {
    var i := 0;
    while i < |RequiredParameters|
      invariant 0 <= i <= |RequiredParameters|
      invariant forall k :: 0 <= k < i ==> RequiredParameters[k] in parameters
    {
      var param := RequiredParameters[i];
      if param !in parameters {
        assert FirstMissing(parameters, RequiredParameters) == Some(param) by {
          if i == 1 {
            assert RequiredParameters[0] in parameters;
          }
        }
        return Some(param);
      }
      i := i + 1;
    }
    return None;
  }

  /** The two cut-offs (pruner/main.go:123-152), once both required
      parameters are present. */
  method ReadStamps(parameters: map<string, string>, clock: Clock) returns (ret: ConfigReturn)
    requires "inactivity" in parameters && "format" in parameters
    ensures ret == Accepted(parameters, clock)
  {
    var (inactivityTimestamp, ok) := clock.addDuration(clock.now, "-" + ReplaceAll(parameters["inactivity"], " ", ""));
    if !ok {
      return Rejected(InvalidInactivity(parameters["inactivity"]));
    }
    var blockTimestamp := ZeroTime;
    if Param(parameters, "indeffed") != "" {
      if parameters["indeffed"] == "0" {
        blockTimestamp := clock.now;
      } else {
        var (parsedBlock, _) := clock.addDuration(clock.now, "-" + ReplaceAll(parameters["indeffed"], " ", ""));
        blockTimestamp := parsedBlock;
      }
    }
    if blockTimestamp == ZeroTime {
      blockTimestamp := clock.twoMonthsEarlier;
    }
    return ConfigReturn(blockTimestamp, inactivityTimestamp, parameters["format"], parameters, None);
  }

  // ---------------------------------------------------------------------
  // What the configuration promises
  // ---------------------------------------------------------------------

  /** A page without a template match is rejected as such. */
  lemma NoMatchIsRejected(clock: Clock)
    ensures Configuration([], clock) == Rejected(NoTemplate)
  {
  }

  /** An accepted configuration has both required parameters, its format
      is the `format` parameter, and its inactivity cut-off is the parsed
      `inactivity` offset; a missing one rejects the page. */
  lemma AcceptedHasRequiredParameters(templateMatch: seq<string>, clock: Clock)
    ensures var c := Configuration(templateMatch, clock);
            c.err.None? ==>
              && "inactivity" in c.parameters && "format" in c.parameters
              && c.format == c.parameters["format"]
              && Before(clock, c.parameters["inactivity"]) == (c.inactivityStamp, true)
              && c.blockStamp == BlockStamp(c.parameters, clock)
    ensures |templateMatch| >= 2 && templateMatch[1] != [] ==>
            var p := ParseParameters(Split(templateMatch[1][1..], '|'));
            p.Ok? && ("inactivity" !in p.value || "format" !in p.value) ==>
              Configuration(templateMatch, clock).err.Some? && Configuration(templateMatch, clock).err.value.MissingParameter?
  {
    if |templateMatch| >= 2 && templateMatch[1] != [] {
      var p := ParseParameters(Split(templateMatch[1][1..], '|'));
      if p.Ok? && ("inactivity" !in p.value || "format" !in p.value) {
        assert !(RequiredParameters[0] in p.value && RequiredParameters[1] in p.value);
      }
    }
  }

  /** `indeffed = 0` blocks from now. */
  lemma IndeffedZeroMeansNow(parameters: map<string, string>, clock: Clock)
    requires Param(parameters, "indeffed") == "0" && clock.now != ZeroTime
    ensures BlockStamp(parameters, clock) == clock.now
  {
  }

  /** Without an `indeffed` value the block cut-off is two months back. */
  lemma IndeffedAbsentMeansTwoMonths(parameters: map<string, string>, clock: Clock)
    requires Param(parameters, "indeffed") == ""
    ensures BlockStamp(parameters, clock) == clock.twoMonthsEarlier
  {
  }

  /** Any other value is the parsed offset from now, unless that is the zero
      time, which defaults to two months back. */
  lemma IndeffedOffset(parameters: map<string, string>, clock: Clock)
    requires Param(parameters, "indeffed") != "" && Param(parameters, "indeffed") != "0"
    ensures var (t, _) := Before(clock, parameters["indeffed"]);
            BlockStamp(parameters, clock) == if t == ZeroTime then clock.twoMonthsEarlier else t
  {
  }

  /** The block cut-off of an accepted configuration is never the zero time
      unless two months back is. */
  lemma AcceptedBlockStampNotZero(templateMatch: seq<string>, clock: Clock)
    requires Configuration(templateMatch, clock).err.None? && clock.twoMonthsEarlier != ZeroTime
    ensures Configuration(templateMatch, clock).blockStamp != ZeroTime
  {
    AcceptedHasRequiredParameters(templateMatch, clock);
  }
}
