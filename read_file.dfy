/** The INI configuration reader: `parseIni` turns the text of a configuration
    file into sections of key/value pairs, and `setConfiguration` copies three
    entries of it into the process environment unless they are already set. */
module ReadFile {
  import opened Wrappers
  import opened Strings

  type Section = map<string, string>
  type Configuration = map<string, Section>

  /** The process environment: a name that is not a key is unset. */
  type Env = map<string, string>

  const AccessPasswordEnv := "ACCESS_PASSWORD"
  const EnvironmentEnv := "ENV"
  const EnvironmentProdValue := "PROD"
  const EnvironmentDevValue := "DEV"
  const JwtSecretEnv := "JWT_SECRET"

  /** ConfParseError, carrying the 1-based number of the offending line. */
  datatype ConfParseError =
    | ElementOutsideSection(line: nat)
    | UnexpectedLine(line: nat, text: string)

  /** Everything `setConfiguration` can throw. */
  datatype ConfigurationError =
    | ParseFailure(cause: ConfParseError)
    | WrongValue(value: string, possibilities: seq<string>)

  // ---------------------------------------------------------------------------
  // Recognising a line
  // ---------------------------------------------------------------------------

  /** What one line of the file is, tried in the order of the source. */
  datatype LineKind =
    | Header(name: string)
    | Element(key: string, value: string)
    | Comment
    | Unexpected

  /** The name captured by `^\[([a-zA-Z]+)\]$`, if the line matches. */
  function HeaderName(line: string): (r: Option<string>)
    ensures r.Some? <==> |line| >= 2 && line == "[" + line[1..|line| - 1] + "]" && IsLetters(line[1..|line| - 1])
    ensures r.Some? ==> r.value == line[1..|line| - 1]
  {
    if |line| >= 3 && line[0] == '[' && line[|line| - 1] == ']' && IsLetters(line[1..|line| - 1])
    then Some(line[1..|line| - 1])
    else None
  }

  predicate QuoteFree(s: string) {
    forall i :: 0 <= i < |s| ==> s[i] != '"'
  }

  /** The value inside `"?([^"]+)"?`: one quote dropped from each end. */
  function StripQuotes(rest: string): string {
    var body := if |rest| > 0 && rest[0] == '"' then rest[1..] else rest;
    if |body| > 0 && body[|body| - 1] == '"' then body[..|body| - 1] else body
  }

  /** Key and value captured by `^([a-zA-Z]+)="?([^"]+)"?$`. The key is the
      run of letters before `=`; one quote is dropped from each end of the
      rest, and what remains must be non-empty and free of quotes. */
  function ElementParts(line: string): Option<(string, string)> {
    var k := LetterPrefixLength(line);
    if k == 0 || k == |line| || line[k] != '=' then None
    else
      var value := StripQuotes(line[k + 1..]);
      if |value| >= 1 && QuoteFree(value) then Some((line[..k], value)) else None
  }

  /** `rest` is `value` with an optional quote before and after it. */
  predicate QuotedForm(rest: string, value: string) {
    || rest == value
    || rest == "\"" + value
    || rest == value + "\""
    || rest == "\"" + value + "\""
  }

  /** The element pattern read as a language: a key of letters, `=`, then a
      non-empty quote-free value with an optional quote on either side. */
  predicate MatchesElement(line: string, key: string, value: string) {
    && IsLetters(key) && |value| >= 1 && QuoteFree(value)
    && |line| > |key| && line == key + "=" + line[|key| + 1..]
    && QuotedForm(line[|key| + 1..], value)
  }

  lemma StripQuotesOfQuotedForm(rest: string, value: string)
    requires |value| >= 1 && QuoteFree(value)
    ensures QuotedForm(rest, value) <==> StripQuotes(rest) == value
  {
    var body := if |rest| > 0 && rest[0] == '"' then rest[1..] else rest;
    if QuotedForm(rest, value) {
      if rest == value || rest == value + "\"" {
        assert rest[0] == value[0];
        assert body == rest;
      } else {
        assert body == rest[1..];
        assert body == value || body == value + "\"";
      }
      if body == value {
        assert body[|body| - 1] == value[|value| - 1];
      } else {
        assert body[..|body| - 1] == value;
      }
    }
    if StripQuotes(rest) == value {
      if |rest| > 0 && rest[0] == '"' {
        assert rest == "\"" + body;
      }
      if |body| > 0 && body[|body| - 1] == '"' {
        assert body == value + "\"";
      }
    }
  }

  /** ElementParts captures exactly the key and value of the pattern. */
  lemma ElementPartsMatches(line: string, key: string, value: string)
    ensures ElementParts(line) == Some((key, value)) <==> MatchesElement(line, key, value)
  {
    if MatchesElement(line, key, value) {
      var k := |key|;
      assert line[..k] == key;
      assert line[k] == '=';
      LetterPrefixOf(line, k);
      StripQuotesOfQuotedForm(line[k + 1..], value);
    }
    if ElementParts(line) == Some((key, value)) {
      var k := LetterPrefixLength(line);
      assert line == line[..k] + "=" + line[k + 1..];
      StripQuotesOfQuotedForm(line[k + 1..], value);
    }
  }

  lemma LetterPrefixOf(s: string, k: nat)
    requires 1 <= k < |s| && IsLetters(s[..k]) && !IsAsciiLetter(s[k])
    ensures LetterPrefixLength(s) == k
  {
  }

  predicate IsCommentLine(line: string) {
    |line| > 0 && (line[0] == ';' || line[0] == '#')
  }

  /** The kind of a line: the header pattern is tried first, then the
      element pattern, then the comment test. */
  function Classify(line: string): (kind: LineKind)
    ensures kind.Header? <==> HeaderName(line).Some?
    ensures kind.Header? ==> kind.name == HeaderName(line).value && IsLetters(kind.name)
    ensures kind.Element? <==> HeaderName(line).None? && ElementParts(line).Some?
    ensures kind.Element? ==> (kind.key, kind.value) == ElementParts(line).value && IsLetters(kind.key)
    ensures kind == Comment <==> HeaderName(line).None? && ElementParts(line).None? && IsCommentLine(line)
    ensures kind == Unexpected <==> HeaderName(line).None? && ElementParts(line).None? && !IsCommentLine(line)
  {
    match HeaderName(line)
    case Some(name) => Header(name)
    case None =>
      match ElementParts(line)
      case Some((key, value)) => Element(key, value)
      case None => if IsCommentLine(line) then Comment else Unexpected
  }

  /** The empty line is none of a header, an element and a comment. */
  lemma EmptyLineUnexpected()
    ensures Classify("") == Unexpected
  {
    assert LetterPrefixLength("") == 0;
  }

  // ---------------------------------------------------------------------------
  // parseIni: a fold over the lines, threading the current section
  // ---------------------------------------------------------------------------

  /** The accumulator of the fold: the current section (`undefined` before
      the first header) and the configuration built so far. */
  datatype ParseState = ParseState(section: Option<string>, conf: Configuration)

  const InitialState := ParseState(None, map[])

  ghost predicate Consistent(st: ParseState) {
    st.section.Some? ==> st.section.value in st.conf
  }

  /** One step of the fold, on the line at 0-based position `index`. */
  function Step(st: ParseState, line: string, index: nat): (r: Result<ParseState, ConfParseError>)
    requires Consistent(st)
    ensures r.Ok? ==> Consistent(r.value)
    // sections are only ever added or emptied, never dropped
    ensures r.Ok? ==> st.conf.Keys <= r.value.conf.Keys
    // a failing line reports its own 1-based number
    ensures r.Err? ==> r.error.line == index + 1
  {
    match Classify(line)
    case Header(name) => Ok(ParseState(Some(name), st.conf[name := map[]]))
    case Element(key, value) =>
      if st.section.None? then Err(ElementOutsideSection(index + 1))
      else
        var s := st.section.value;
        Ok(st.(conf := st.conf[s := st.conf[s][key := value]]))
    case Comment => Ok(st)
    case Unexpected => Err(UnexpectedLine(index + 1, line))
  }

  /** The fold over `lines[i..]`, stopping at the first error. */
  function ParseLines(lines: seq<string>, i: nat, st: ParseState): (r: Result<ParseState, ConfParseError>)
    requires i <= |lines| && Consistent(st)
    ensures r.Err? ==> i < r.error.line <= |lines|
    decreases |lines| - i
  {
    if i == |lines| then Ok(st)
    else
      match Step(st, lines[i], i)
      case Err(e) => Err(e)
      case Ok(next) => ParseLines(lines, i + 1, next)
  }

  /** The configuration `parseIni(data)` returns, or the error it throws. */
  function ParsedConfiguration(data: string): (r: Result<Configuration, ConfParseError>)
    // the error names a line of the file
    ensures r.Err? ==> 1 <= r.error.line <= |Split(data, '\n')|
  {
    match ParseLines(Split(data, '\n'), 0, InitialState)
    case Ok(st) => Ok(st.conf)
    case Err(e) => Err(e)
  }

  /** parseIni: splits the text at newlines and updates the configuration
      line by line, stopping at the first line that is not understood. */
  method ParseIni(data: string) returns (r: Result<Configuration, ConfParseError>)
    ensures r == ParsedConfiguration(data)
  {
    var lines := Split(data, '\n');
    var conf: Configuration := map[];
    var section: Option<string> := None;
    var index := 0;
    while index < |lines|
      invariant 0 <= index <= |lines|
      invariant Consistent(ParseState(section, conf))
      invariant ParseLines(lines, 0, InitialState) == ParseLines(lines, index, ParseState(section, conf))
    {
      var line := lines[index];
      match Classify(line) {
        case Header(name) =>
          section := Some(name);
          conf := conf[name := map[]];
        case Element(key, value) =>
          if section.None? {
            return Err(ElementOutsideSection(index + 1));
          }
          conf := conf[section.value := conf[section.value][key := value]];
        case Comment =>
        case Unexpected =>
          return Err(UnexpectedLine(index + 1, line));
      }
      index := index + 1;
    }
    r := Ok(conf);
  }

  // ---------------------------------------------------------------------------
  // Properties of one step
  // ---------------------------------------------------------------------------

  /** A header makes its name the current section and empties that section,
      dropping what an earlier header of the same name collected. */
  lemma HeaderStep(st: ParseState, name: string, index: nat)
    requires Consistent(st) && IsLetters(name)
    ensures Step(st, "[" + name + "]", index) == Ok(ParseState(Some(name), st.conf[name := map[]]))
  {
    var line := "[" + name + "]";
    assert line[1..|line| - 1] == name;
  }

  /** An element line stores its value under the current section, replacing
      an earlier value of the same key and leaving every other entry alone. */
  lemma ElementStep(st: ParseState, line: string, key: string, value: string, index: nat)
    requires Consistent(st) && st.section.Some?
    requires MatchesElement(line, key, value)
    ensures Step(st, line, index).Ok?
    ensures var conf' := Step(st, line, index).value.conf;
      && conf'.Keys == st.conf.Keys
      && conf'[st.section.value] == st.conf[st.section.value][key := value]
      && (forall s :: s in st.conf && s != st.section.value ==> conf'[s] == st.conf[s])
  {
    ElementPartsMatches(line, key, value);
    assert line[0] == key[0];
  }

  /** Before any header, an element line fails with its 1-based number. */
  lemma ElementOutsideSectionStep(line: string, key: string, value: string, index: nat)
    requires MatchesElement(line, key, value)
    ensures Step(InitialState, line, index) == Err(ElementOutsideSection(index + 1))
  {
    ElementPartsMatches(line, key, value);
    assert line[0] == key[0];
  }

  /** A comment line changes nothing. */
  lemma CommentStep(st: ParseState, line: string, index: nat)
    requires Consistent(st) && IsCommentLine(line)
    ensures Step(st, line, index) == Ok(st)
  {
    assert LetterPrefixLength(line) == 0;
  }

  // ---------------------------------------------------------------------------
  // Properties of the whole parse
  // ---------------------------------------------------------------------------

  /** An unexpected line anywhere in `lines[i..]` makes the fold fail, at
      that line or before it; when the lines before it are all understood,
      the error is UnexpectedLine with its 1-based number and its text. */
  lemma {:induction false} UnexpectedLineFails(lines: seq<string>, i: nat, st: ParseState, j: nat)
    requires i <= j < |lines| && Consistent(st)
    requires Classify(lines[j]) == Unexpected
    ensures ParseLines(lines, i, st).Err?
    ensures ParseLines(lines, i, st).error.line <= j + 1
    ensures ParseLines(lines[..j], i, st).Ok? ==> ParseLines(lines, i, st) == Err(UnexpectedLine(j + 1, lines[j]))
    decreases |lines| - i
  {
    var prefix := lines[..j];
    assert forall k :: i <= k < j ==> prefix[k] == lines[k];
    if i < j {
      match Step(st, lines[i], i)
      case Err(_) =>
      case Ok(next) => UnexpectedLineFails(lines, i + 1, next, j);
    }
  }

  /** An empty line anywhere makes parseIni throw: a blank separator line
      fails the whole file. */
  lemma EmptyLineFails(data: string, j: nat)
    requires j < |Split(data, '\n')| && Split(data, '\n')[j] == ""
    ensures ParsedConfiguration(data).Err?
  {
    EmptyLineUnexpected();
    UnexpectedLineFails(Split(data, '\n'), 0, InitialState, j);
  }

  /** A file that ends with a newline never parses: its last line is empty. */
  lemma TrailingNewlineFails(data: string)
    ensures ParsedConfiguration(data + "\n").Err?
  {
    SplitTrailingSeparator(data, '\n');
    EmptyLineFails(data + "\n", |Split(data, '\n')|);
  }

  /** The empty file does not parse either: it is one empty line. */
  lemma EmptyFileFails()
    ensures ParsedConfiguration("") == Err(UnexpectedLine(1, ""))
  {
    EmptyLineUnexpected();
  }

  /** If every line before position i is a comment and line i is an element,
      the parse fails with ElementOutsideSection(i + 1). */
  lemma {:induction false} ElementBeforeHeaderFails(lines: seq<string>, i: nat, j: nat, key: string, value: string)
    requires j <= i < |lines|
    requires forall k :: j <= k < i ==> IsCommentLine(lines[k])
    requires MatchesElement(lines[i], key, value)
    ensures ParseLines(lines, j, InitialState) == Err(ElementOutsideSection(i + 1))
    decreases i - j
  {
    if j == i {
      ElementOutsideSectionStep(lines[i], key, value, i);
    } else {
      CommentStep(InitialState, lines[j], j);
      ElementBeforeHeaderFails(lines, i, j + 1, key, value);
    }
  }

  /** Every key the fold stores is made of letters only. */
  ghost predicate LetterKeys(conf: Configuration) {
    forall s, k :: s in conf && k in conf[s] ==> IsLetters(k)
  }

  lemma {:induction false} ParseLinesLetterKeys(lines: seq<string>, i: nat, st: ParseState)
    requires i <= |lines| && Consistent(st) && LetterKeys(st.conf)
    requires ParseLines(lines, i, st).Ok?
    ensures LetterKeys(ParseLines(lines, i, st).value.conf)
    decreases |lines| - i
  {
    if i < |lines| {
      var next := Step(st, lines[i], i).value;
      assert LetterKeys(next.conf);
      ParseLinesLetterKeys(lines, i + 1, next);
    }
  }

  /** A parsed configuration only has keys of letters, so a key with an
      underscore such as `access_password` is never present. */
  lemma ParsedKeysAreLetters(data: string)
    requires ParsedConfiguration(data).Ok?
    ensures LetterKeys(ParsedConfiguration(data).value)
    ensures forall s :: s in ParsedConfiguration(data).value ==> "access_password" !in ParsedConfiguration(data).value[s]
  {
    ParseLinesLetterKeys(Split(data, '\n'), 0, InitialState);
    assert !IsLetters("access_password") by {
      assert !IsAsciiLetter("access_password"[6]);
    }
  }

  // ---------------------------------------------------------------------------
  // trySetEnv and setConfiguration
  // ---------------------------------------------------------------------------

  /** The two-step path lookup `conf[section][key]`; `None` when either step
      is missing. */
  function ValueAt(conf: Configuration, section: string, key: string): (r: Option<string>)
    ensures r.Some? <==> section in conf && key in conf[section]
    ensures r.Some? ==> r.value == conf[section][key]
  {
    if section in conf && key in conf[section] then Some(conf[section][key]) else None
  }

  /** What a call of trySetEnv leaves: the environment after it and the
      error it throws, if any (the write happens before the check). */
  datatype EnvUpdate = EnvUpdate(env: Env, error: Option<ConfigurationError>)

  /** The effect of `trySetEnv(name, defaultValue, conf, [section, key], possibilities)`. */
  function SetEnv(env: Env, name: string, defaultValue: string, conf: Configuration,
                  section: string, key: string, possibilities: Option<seq<string>>): (r: EnvUpdate)
    // a defined variable is left alone, whatever the configuration holds
    ensures name in env ==> r == EnvUpdate(env, None)
    // otherwise the value at the path, or the default, is written ...
    ensures name !in env ==> r.env == env[name := ValueAt(conf, section, key).GetOr(defaultValue)]
    // ... and the call throws exactly when a list is given that lacks that value
    ensures name !in env ==>
      (r.error.Some? <==> possibilities.Some? && r.env[name] !in possibilities.value)
    ensures r.error.Some? ==> r.error.value == WrongValue(r.env[name], possibilities.value)
  {
    if name in env then EnvUpdate(env, None)
    else
      var value := match ValueAt(conf, section, key) case Some(v) => v case None => defaultValue;
      var env' := env[name := value];
      if possibilities.Some? && value !in possibilities.value
      then EnvUpdate(env', Some(WrongValue(value, possibilities.value)))
      else EnvUpdate(env', None)
  }

  /** The effect of `setConfiguration` on a file whose text is `file`
      (`None` when no file path is given or the file does not exist). */
  function ConfigurationUpdate(env: Env, file: Option<string>): (u: EnvUpdate)
    // without a file nothing is written and nothing is thrown
    ensures file.None? ==> u == EnvUpdate(env, None)
    // a file that does not parse changes nothing and throws the parser's error
    ensures file.Some? && ParsedConfiguration(file.value).Err? ==>
      u == EnvUpdate(env, Some(ParseFailure(ParsedConfiguration(file.value).error)))
    // after a file that sets up without error, the three variables are defined
    ensures file.Some? && u.error.None? ==>
      AccessPasswordEnv in u.env && EnvironmentEnv in u.env && JwtSecretEnv in u.env
  {
    if file.None? then EnvUpdate(env, None)
    else
      match ParsedConfiguration(file.value)
      case Err(e) => EnvUpdate(env, Some(ParseFailure(e)))
      case Ok(conf) =>
        var u1 := SetEnv(env, AccessPasswordEnv, "", conf, "general", "access_password", None);
        var u2 := SetEnv(u1.env, EnvironmentEnv, "ENV", conf, "general", "environment",
                         Some([EnvironmentProdValue, EnvironmentDevValue]));
        if u2.error.Some? then u2
        else SetEnv(u2.env, JwtSecretEnv, "", conf, "general", "secret", None)
  }

  /** `process.env`, the one global the reader writes. */
  class ProcessEnv {
    var vars: Env

    constructor (initial: Env)
      ensures vars == initial
    {
      vars := initial;
    }
  }

  /** trySetEnv: writes `name` from the configuration or the default unless
      it is already set, then checks the written value against the list. */
  method TrySetEnv(process: ProcessEnv, name: string, defaultValue: string, conf: Configuration,
                   section: string, key: string, possibilities: Option<seq<string>>)
    returns (error: Option<ConfigurationError>)
    modifies process
    ensures EnvUpdate(process.vars, error)
         == SetEnv(old(process.vars), name, defaultValue, conf, section, key, possibilities)
  {
    error := None;
    if name !in process.vars {
      var valueInConf := ValueAt(conf, section, key);
      process.vars := process.vars[name := if valueInConf.None? then defaultValue else valueInConf.value];
      if possibilities.Some? && process.vars[name] !in possibilities.value {
        error := Some(WrongValue(process.vars[name], possibilities.value));
      }
    }
  }

  /** setConfiguration, with the file's text in place of reading the file. */
  method SetConfiguration(process: ProcessEnv, file: Option<string>)
    returns (error: Option<ConfigurationError>)
    modifies process
    ensures EnvUpdate(process.vars, error) == ConfigurationUpdate(old(process.vars), file)
  {
    error := None;
    if file.Some? {
      var parsed := ParseIni(file.value);
      if parsed.Err? {
        return Some(ParseFailure(parsed.error));
      }
      var conf := parsed.value;
      error := TrySetEnv(process, AccessPasswordEnv, "", conf, "general", "access_password", None);
      error := TrySetEnv(process, EnvironmentEnv, "ENV", conf, "general", "environment",
                         Some([EnvironmentProdValue, EnvironmentDevValue]));
      if error.Some? {
        return;
      }
      error := TrySetEnv(process, JwtSecretEnv, "", conf, "general", "secret", None);
    }
  }

  // ---------------------------------------------------------------------------
  // Consequences for the three variables
  // ---------------------------------------------------------------------------

  /** ACCESS_PASSWORD can never come from the file: when it was unset and the
      file parses, it ends up as the default, the empty string. */
  lemma AccessPasswordAlwaysDefault(env: Env, data: string)
    requires AccessPasswordEnv !in env
    requires ParsedConfiguration(data).Ok?
    ensures AccessPasswordEnv in ConfigurationUpdate(env, Some(data)).env
    ensures ConfigurationUpdate(env, Some(data)).env[AccessPasswordEnv] == ""
  {
    var conf := ParsedConfiguration(data).value;
    ParsedKeysAreLetters(data);
    assert ValueAt(conf, "general", "access_password").None?;
  }

  /** With ENV unset and no `environment` key in `[general]`, the default
      "ENV" is written and then rejected; JWT_SECRET is left as it was. */
  lemma MissingEnvironmentRejected(env: Env, data: string)
    requires EnvironmentEnv !in env
    requires ParsedConfiguration(data).Ok?
    requires ValueAt(ParsedConfiguration(data).value, "general", "environment").None?
    ensures var u := ConfigurationUpdate(env, Some(data));
      && u.error == Some(WrongValue("ENV", [EnvironmentProdValue, EnvironmentDevValue]))
      && EnvironmentEnv in u.env && u.env[EnvironmentEnv] == "ENV"
      && (JwtSecretEnv in u.env <==> JwtSecretEnv in env)
  {
  }

  /** A configuration that goes through without error leaves ENV set to
      PROD or DEV when it was unset before. */
  lemma EnvironmentAllowedAfterSuccess(env: Env, data: string)
    requires EnvironmentEnv !in env
    requires ConfigurationUpdate(env, Some(data)).error.None?
    ensures EnvironmentEnv in ConfigurationUpdate(env, Some(data)).env
    ensures ConfigurationUpdate(env, Some(data)).env[EnvironmentEnv] in [EnvironmentProdValue, EnvironmentDevValue]
  {
  }

  /** setConfiguration never changes a variable that was already set, and
      never sets one other than the three it handles. */
  lemma ConfigurationKeepsDefined(env: Env, file: Option<string>, name: string)
    ensures name in env ==> name in ConfigurationUpdate(env, file).env && ConfigurationUpdate(env, file).env[name] == env[name]
    ensures name !in env && name !in {AccessPasswordEnv, EnvironmentEnv, JwtSecretEnv}
      ==> name !in ConfigurationUpdate(env, file).env
  {
    if file.Some? && ParsedConfiguration(file.value).Ok? {
      var conf := ParsedConfiguration(file.value).value;
      var u1 := SetEnv(env, AccessPasswordEnv, "", conf, "general", "access_password", None);
      var u2 := SetEnv(u1.env, EnvironmentEnv, "ENV", conf, "general", "environment",
                       Some([EnvironmentProdValue, EnvironmentDevValue]));
      var u3 := SetEnv(u2.env, JwtSecretEnv, "", conf, "general", "secret", None);
      assert name in env ==> name in u1.env && u1.env[name] == env[name];
      assert name in env ==> name in u2.env && u2.env[name] == env[name];
      assert name in env ==> name in u3.env && u3.env[name] == env[name];
    }
  }
}
