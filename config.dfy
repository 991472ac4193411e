/**
 * xxx::config::configurations_t: an immutable key/value map built from
 * options or from a "key = value" file, and its typed getters.
 */
module Config {
  import opened Wrappers
  import opened Text
  import opened FileSystem
  import Files

  /** The exceptions of the constructors and getters. */
  datatype ConfigError =
    | OutOfRange               // std::out_of_range: no such key
    | BadCast                  // std::bad_cast: the value does not convert
    | InvalidArgument          // std::invalid_argument: an option key is invalid
    | RuntimeError(line: string)  // std::runtime_error: a line of the file is malformed
    | IoFailure                // std::ios_base::failure: the file cannot be opened

  /** configurations_t: the map config_; no operation changes it after construction. */
  datatype Configurations = Configurations(config: map<string, string>)

  // ---------------------------------------------------------------- keys

  /** The characters of [-_.A-Za-z0-9]. */
  predicate IsKeyChar(c: char) {
    c == '-' || c == '_' || c == '.' || ('A' <= c <= 'Z') || ('a' <= c <= 'z') || ('0' <= c <= '9')
  }

  /** A key matches ^[-_.A-Za-z0-9]+$ (is_invalid_key is its negation). */
  predicate IsValidKey(key: string) {
    |key| > 0 && forall i :: 0 <= i < |key| ==> IsKeyChar(key[i])
  }

  /** Keys with a blank, an empty key and a '$' are invalid; digits, '.', '-' and '_' alone are fine. */
  lemma KeyExamples()
    ensures !IsValidKey(" foo ") && !IsValidKey("foo bar") && !IsValidKey("") && !IsValidKey("foo$bar")
    ensures IsValidKey("Aa1.-_") && IsValidKey("1") && IsValidKey("-")
  {
    assert " foo "[0] == ' ';
    assert "foo bar"[3] == ' ';
    assert "foo$bar"[3] == '$';
  }

  /** configurations_t(options): the options as they are, unless some key is invalid. */
  function FromOptions(options: map<string, string>): (r: Result<Configurations, ConfigError>)
    ensures r.Success? <==> forall k :: k in options ==> IsValidKey(k)
    ensures r.Success? ==> r.value.config == options
    ensures r.Failure? ==> r.error == InvalidArgument
  {
    if exists k :: k in options && !IsValidKey(k) then Failure(InvalidArgument)
    else Success(Configurations(options))
  }

  // ---------------------------------------------------------------- lines

  /** [ \t\v]: the blanks the line expression allows around the key and after '='. */
  predicate IsBlank(c: char) {
    c == ' ' || c == '\t' || c == '\U{0B}'
  }

  /** " \t\v\r\n": the characters of a line that counts as empty. */
  predicate IsSkipChar(c: char) {
    IsBlank(c) || c == '\r' || c == '\n'
  }

  /** The characters '.' does not match in an ECMAScript expression over char. */
  predicate IsLineTerminator(c: char) {
    c == '\r' || c == '\n'
  }

  /** The value holds neither '\r' nor '\n'. */
  predicate NoTerminator(s: string) {
    forall k :: 0 <= k < |s| ==> !IsLineTerminator(s[k])
  }

  /** The length of the longest prefix of s whose characters all satisfy p. */
  function Span(s: string, p: char -> bool): (n: nat)
    ensures n <= |s|
  {
    if s == [] || !p(s[0]) then 0 else 1 + Span(s[1..], p)
  }

  /** Span stops at the first character that fails p, and only there. */
  lemma {:induction false} SpanIsMaximal(s: string, p: char -> bool)
    ensures forall k :: 0 <= k < Span(s, p) ==> p(s[k])
    ensures Span(s, p) < |s| ==> !p(s[Span(s, p)])
  {
    if s != [] && p(s[0]) {
      SpanIsMaximal(s[1..], p);
      assert forall k :: 1 <= k < |s| ==> s[k] == s[1..][k - 1];
    }
  }

  /** An empty line, a comment ('#' in column 0) or a line of " \t\v\r\n" only. */
  predicate IsSkipped(line: string) {
    line == "" || line[0] == '#' || forall i :: 0 <= i < |line| ==> IsSkipChar(line[i])
  }

  datatype LineResult = Skip | Pair(key: string, value: string) | SyntaxError

  /**
   * One line of the file: skipped, or matched against
   * ^[ \t\v]*([-_.A-Za-z0-9]+)[ \t\v]*=[ \t\v]*(.*)$ with the key as group 1
   * and the value as group 2. Key characters are neither blanks nor '=', so
   * the match is the one obtained by reading blanks, key, blanks, '=' and
   * blanks as far as each goes; the rest must hold no line terminator.
   */
  function ParseLine(line: string): LineResult {
    if IsSkipped(line) then Skip else ParseKey(line[Span(line, IsBlank)..])
  }

  /** The key: the longest run of key characters, which must not be empty. */
  function ParseKey(s: string): LineResult {
    var n := Span(s, IsKeyChar);
    if n == 0 then SyntaxError else ParseEquals(s[..n], s[n..])
  }

  /** Blanks, then '='. */
  function ParseEquals(key: string, s: string): LineResult {
    var t := s[Span(s, IsBlank)..];
    if t == [] || t[0] != '=' then SyntaxError else ParseValue(key, t[1..])
  }

  /** Blanks, then the value up to the end of the line. */
  function ParseValue(key: string, s: string): LineResult {
    var v := s[Span(s, IsBlank)..];
    if NoTerminator(v) then Pair(key, v) else SyntaxError
  }

  /** A value ends what it is parsed from, without leading blank or line terminator. */
  predicate ValueOf(v: string, s: string) {
    && |v| <= |s|
    && v == s[|s| - |v|..]
    && (v != "" ==> !IsBlank(v[0]))
    && NoTerminator(v)
  }

  lemma ParseValueShape(key: string, s: string)
    requires ParseValue(key, s).Pair?
    ensures ParseValue(key, s).key == key && ValueOf(ParseValue(key, s).value, s)
  {
    SpanIsMaximal(s, IsBlank);
  }

  lemma ParseEqualsShape(key: string, s: string)
    requires ParseEquals(key, s).Pair?
    ensures ParseEquals(key, s).key == key && ValueOf(ParseEquals(key, s).value, s)
  {
    var t := s[Span(s, IsBlank)..];
    ParseValueShape(key, t[1..]);
    ValueOfSuffix(ParseEquals(key, s).value, t[1..], s);
  }

  /** A value read from the end of a suffix of s is read from the end of s. */
  lemma ValueOfSuffix(v: string, u: string, s: string)
    requires ValueOf(v, u) && |u| <= |s| && u == s[|s| - |u|..]
    ensures ValueOf(v, s)
  {
    assert s[|s| - |v|..] == u[|u| - |v|..];
  }

  lemma ParseKeyShape(s: string)
    requires ParseKey(s).Pair?
    ensures IsValidKey(ParseKey(s).key) && ValueOf(ParseKey(s).value, s)
  {
    var n := Span(s, IsKeyChar);
    SpanIsMaximal(s, IsKeyChar);
    ParseEqualsShape(s[..n], s[n..]);
  }

  /**
   * What a parsed line yields: a valid key, and a value that ends the line,
   * with no leading blank and no line terminator.
   */
  lemma ParsedPair(line: string)
    requires ParseLine(line).Pair?
    ensures IsValidKey(ParseLine(line).key)
    ensures ValueOf(ParseLine(line).value, line)
  {
    ParseKeyShape(line[Span(line, IsBlank)..]);
  }

  predicate AllBlank(s: string) {
    forall i :: 0 <= i < |s| ==> IsBlank(s[i])
  }

  /** A run of characters satisfying p, followed by one that does not, spans exactly the run. */
  lemma {:induction false} SpanOfRun(ws: string, rest: string, p: char -> bool)
    requires forall i :: 0 <= i < |ws| ==> p(ws[i])
    requires rest == [] || !p(rest[0])
    ensures Span(ws + rest, p) == |ws|
    decreases |ws|
  {
    if ws != [] {
      assert (ws + rest)[1..] == ws[1..] + rest;
      SpanOfRun(ws[1..], rest, p);
    } else {
      assert ws + rest == rest;
    }
  }

  lemma ValueRoundTrip(key: string, ws: string, value: string)
    requires AllBlank(ws) && ValueOf(value, value)
    ensures ParseValue(key, ws + value) == Pair(key, value)
  {
    SpanOfRun(ws, value, IsBlank);
    assert (ws + value)[|ws|..] == value;
  }

  lemma EqualsRoundTrip(key: string, ws2: string, ws3: string, value: string)
    requires AllBlank(ws2) && AllBlank(ws3) && ValueOf(value, value)
    ensures ParseEquals(key, ws2 + ("=" + (ws3 + value))) == Pair(key, value)
  {
    var t := "=" + (ws3 + value);
    SpanOfRun(ws2, t, IsBlank);
    assert (ws2 + t)[|ws2|..] == t;
    assert t[1..] == ws3 + value;
    ValueRoundTrip(key, ws3, value);
  }

  lemma KeyRoundTrip(key: string, ws2: string, ws3: string, value: string)
    requires IsValidKey(key) && AllBlank(ws2) && AllBlank(ws3) && ValueOf(value, value)
    ensures ParseKey(key + (ws2 + ("=" + (ws3 + value)))) == Pair(key, value)
  {
    var rest := ws2 + ("=" + (ws3 + value));
    assert rest[0] == if ws2 == [] then '=' else ws2[0];
    SpanOfRun(key, rest, IsKeyChar);
    assert (key + rest)[..|key|] == key;
    assert (key + rest)[|key|..] == rest;
    EqualsRoundTrip(key, ws2, ws3, value);
  }

  /**
   * A line written as blanks, key, blanks, '=', blanks and a value reads
   * back as that key and value (the value neither starts with a blank nor
   * holds a line terminator).
   */
  lemma ParseLineRoundTrip(ws1: string, key: string, ws2: string, ws3: string, value: string)
    requires AllBlank(ws1) && AllBlank(ws2) && AllBlank(ws3)
    requires IsValidKey(key)
    requires value != "" ==> !IsBlank(value[0])
    requires NoTerminator(value)
    ensures ParseLine(ws1 + key + ws2 + "=" + ws3 + value) == Pair(key, value)
  {
    var rest := key + (ws2 + ("=" + (ws3 + value)));
    var line := ws1 + rest;
    assert line == ws1 + key + ws2 + "=" + ws3 + value;
    assert line[|ws1|] == key[0];
    assert !IsSkipped(line) by {
      if |ws1| > 0 { assert line[0] == ws1[0]; }
      assert !IsSkipChar(line[|ws1|]);
    }
    SpanOfRun(ws1, rest, IsBlank);
    assert line[|ws1|..] == rest;
    KeyRoundTrip(key, ws2, ws3, value);
  }

  /** Lines that are skipped. */
  lemma SkippedLines()
    ensures ParseLine("") == Skip && ParseLine("# note") == Skip && ParseLine(" \t\r") == Skip
  {
  }

  /** A key alone, an invalid key, a missing key, and a '#' after a blank are malformed. */
  lemma MalformedLines()
    ensures ParseLine("a") == SyntaxError && ParseLine("$=a") == SyntaxError
    ensures ParseLine("=a") == SyntaxError && ParseLine(" #") == SyntaxError
  {
    assert !IsSkipChar("a"[0]) && Span("a", IsBlank) == 0 && "a"[0..] == "a";
    assert Span("a", IsKeyChar) == 1 && "a"[..1] == "a" && "a"[1..] == "";
    assert !IsSkipChar("$=a"[0]) && Span("$=a", IsBlank) == 0 && Span("$=a"[0..], IsKeyChar) == 0;
    assert !IsSkipChar("=a"[0]) && Span("=a", IsBlank) == 0 && Span("=a"[0..], IsKeyChar) == 0;
    assert !IsSkipChar(" #"[1]) && Span(" #", IsBlank) == 1 && " #"[1..] == "#" && Span("#", IsKeyChar) == 0;
  }

  /** Trailing blanks stay in the value. */
  lemma TrailingBlanksKept()
    ensures ParseLine(" e = f ") == Pair("e", "f ")
  {
    assert " e = f " == " " + "e" + " " + "=" + " " + "f ";
    ParseLineRoundTrip(" ", "e", " ", " ", "f ");
  }

  /** Blanks alone after '=' give the empty value. */
  lemma BlankValueIsEmpty()
    ensures ParseLine("j=\t") == Pair("j", "")
  {
    assert "j=\t" == "" + "j" + "" + "=" + "\t" + "";
    ParseLineRoundTrip("", "j", "", "\t", "");
  }

  /**
   * The map the file constructor builds from the lines, given the parser of
   * one line: later lines overwrite earlier ones, the first malformed line
   * throws. The parser is a parameter so that what follows holds whatever
   * it does with a line; the file constructor uses ParseLine (Load).
   */
  function Collect(lines: seq<string>, parse: string -> LineResult): Result<map<string, string>, ConfigError>
    decreases |lines|
  {
    if lines == [] then Success(map[])
    else
      var line := lines[|lines| - 1];
      match Collect(lines[..|lines| - 1], parse)
      case Failure(e) => Failure(e)
      case Success(m) =>
        match parse(line)
        case Skip => Success(m)
        case SyntaxError => Failure(RuntimeError(line))
        case Pair(k, v) => Success(m[k := v])
  }

  /** The lines of a file, loaded. */
  function Load(lines: seq<string>): Result<map<string, string>, ConfigError> {
    Collect(lines, ParseLine)
  }

  /** Line i defines key k. */
  predicate Defines(lines: seq<string>, parse: string -> LineResult, i: int, k: string)
    requires 0 <= i < |lines|
  {
    parse(lines[i]).Pair? && parse(lines[i]).key == k
  }

  /** Line i is the last to define k. */
  predicate LastDefinition(lines: seq<string>, parse: string -> LineResult, i: int, k: string)
    requires 0 <= i < |lines|
  {
    Defines(lines, parse, i, k) && forall j :: i < j < |lines| ==> !Defines(lines, parse, j, k)
  }

  /** Line i is malformed. */
  predicate Malformed(lines: seq<string>, parse: string -> LineResult, i: int)
    requires 0 <= i < |lines|
  {
    parse(lines[i]).SyntaxError?
  }

  /** Line i is the first malformed line. */
  predicate FirstMalformed(lines: seq<string>, parse: string -> LineResult, i: int) {
    && 0 <= i < |lines|
    && Malformed(lines, parse, i)
    && forall j :: 0 <= j < i ==> !Malformed(lines, parse, j)
  }

  /**
   * Loading fails exactly when some line is malformed, and then with the
   * first such line.
   */
  lemma {:induction false} LoadFailsOnFirstMalformed(lines: seq<string>, parse: string -> LineResult)
    ensures Collect(lines, parse).Failure? ==>
      exists i :: FirstMalformed(lines, parse, i) && Collect(lines, parse).error == RuntimeError(lines[i])
    ensures (exists i :: 0 <= i < |lines| && Malformed(lines, parse, i)) ==> Collect(lines, parse).Failure?
    decreases |lines|
  {
    if lines != [] {
      var n := |lines| - 1;
      var init := lines[..n];
      LoadFailsOnFirstMalformed(init, parse);
      assert forall j :: 0 <= j < n ==> init[j] == lines[j];
      if Collect(init, parse).Failure? {
        var i :| FirstMalformed(init, parse, i) && Collect(init, parse).error == RuntimeError(init[i]);
        forall j | 0 <= j < i ensures !Malformed(lines, parse, j) {
          assert !Malformed(init, parse, j);
        }
        assert FirstMalformed(lines, parse, i);
      } else if Malformed(lines, parse, n) {
        forall j | 0 <= j < n ensures !Malformed(lines, parse, j) {
          assert !Malformed(init, parse, j);
        }
        assert FirstMalformed(lines, parse, n);
      } else {
        forall i | 0 <= i < |lines| ensures !Malformed(lines, parse, i) {
          if i < n { assert !Malformed(init, parse, i); }
        }
      }
    }
  }

  /** The value the last line defining k gives it, read from the end of the file. */
  function LastValue(lines: seq<string>, parse: string -> LineResult, k: string): Option<string>
    decreases |lines|
  {
    if lines == [] then None
    else
      var r := parse(lines[|lines| - 1]);
      if r.Pair? && r.key == k then Some(r.value) else LastValue(lines[..|lines| - 1], parse, k)
  }

  /** The loaded map holds, for each key, the value of the last line defining it, and nothing else. */
  lemma {:induction false} LoadIsLastValue(lines: seq<string>, parse: string -> LineResult, k: string)
    requires Collect(lines, parse).Success?
    ensures k in Collect(lines, parse).value <==> LastValue(lines, parse, k).Some?
    ensures k in Collect(lines, parse).value ==> Collect(lines, parse).value[k] == LastValue(lines, parse, k).value
    decreases |lines|
  {
    if lines != [] {
      LoadIsLastValue(lines[..|lines| - 1], parse, k);
    }
  }

  /** LastValue finds nothing exactly when no line defines the key. */
  lemma {:induction false} LastValueAbsent(lines: seq<string>, parse: string -> LineResult, k: string)
    ensures LastValue(lines, parse, k).None? <==> forall i :: 0 <= i < |lines| ==> !Defines(lines, parse, i, k)
    decreases |lines|
  {
    if lines != [] {
      var n := |lines| - 1;
      var init := lines[..n];
      LastValueAbsent(init, parse, k);
      if LastValue(lines, parse, k).None? {
        forall i | 0 <= i < |lines| ensures !Defines(lines, parse, i, k) {
          if i < n { assert init[i] == lines[i] && !Defines(init, parse, i, k); }
        }
      } else if !Defines(lines, parse, n, k) {
        var i :| 0 <= i < n && Defines(init, parse, i, k);
        assert init[i] == lines[i] && Defines(lines, parse, i, k);
      }
    }
  }

  /** What LastValue finds is the value of the last line defining the key. */
  lemma {:induction false} LastValueIsLastDefinition(lines: seq<string>, parse: string -> LineResult, k: string)
    requires LastValue(lines, parse, k).Some?
    ensures exists i ::
      && 0 <= i < |lines|
      && LastDefinition(lines, parse, i, k)
      && parse(lines[i]).value == LastValue(lines, parse, k).value
    decreases |lines|
  {
    var n := |lines| - 1;
    var init := lines[..n];
    if Defines(lines, parse, n, k) {
      assert LastDefinition(lines, parse, n, k);
    } else {
      LastValueIsLastDefinition(init, parse, k);
      var i :| 0 <= i < n && LastDefinition(init, parse, i, k) && parse(init[i]).value == LastValue(init, parse, k).value;
      assert init[i] == lines[i];
      forall j | i < j < |lines| ensures !Defines(lines, parse, j, k) {
        if j < n { assert init[j] == lines[j] && !Defines(init, parse, j, k); }
      }
      assert LastDefinition(lines, parse, i, k);
    }
  }

  /**
   * For the file's own parser: a loaded key is a valid key, some line
   * defines it, and its value is the value of the last line that does;
   * a key no line defines is not loaded.
   */
  lemma LoadedFile(lines: seq<string>, k: string)
    requires Load(lines).Success?
    ensures k in Load(lines).value <==> exists i :: 0 <= i < |lines| && Defines(lines, ParseLine, i, k)
    ensures k in Load(lines).value ==>
      && IsValidKey(k)
      && exists i ::
        && 0 <= i < |lines|
        && LastDefinition(lines, ParseLine, i, k)
        && ParseLine(lines[i]).value == Load(lines).value[k]
  {
    LoadIsLastValue(lines, ParseLine, k);
    LastValueAbsent(lines, ParseLine, k);
    if k in Load(lines).value {
      LastValueIsLastDefinition(lines, ParseLine, k);
      var i :| 0 <= i < |lines| && LastDefinition(lines, ParseLine, i, k)
        && ParseLine(lines[i]).value == LastValue(lines, ParseLine, k).value;
      ParsedPair(lines[i]);
    }
  }

  /** The file constructor's loop: one getline result at a time into config_. */
  method LoadLines(lines: seq<string>) returns (r: Result<map<string, string>, ConfigError>)
    ensures r == Load(lines)
  {
    var config: map<string, string> := map[];
    var i := 0;
    while i < |lines|
      invariant 0 <= i <= |lines|
      invariant Collect(lines[..i], ParseLine) == Success(config)
    {
      var line := lines[i];
      assert lines[..i + 1][..i] == lines[..i];
      match ParseLine(line) {
        case Skip =>
        case SyntaxError =>
          LoadFailurePersists(lines, ParseLine, i + 1);
          return Failure(RuntimeError(line));
        case Pair(key, value) =>
          config := config[key := value];
      }
      i := i + 1;
    }
    assert lines[..i] == lines;
    return Success(config);
  }

  /** Once a prefix fails to load, so does the whole, with the same error. */
  lemma {:induction false} LoadFailurePersists(lines: seq<string>, parse: string -> LineResult, n: nat)
    requires n <= |lines| && Collect(lines[..n], parse).Failure?
    ensures Collect(lines, parse) == Collect(lines[..n], parse)
    decreases |lines| - n
  {
    if n < |lines| {
      assert lines[..n + 1][..n] == lines[..n];
      LoadFailurePersists(lines, parse, n + 1);
    } else {
      assert lines[..n] == lines;
    }
  }

  /** configurations_t(path): open the file (or fail), then load its lines. */
  function FromFileSpec(fs: Fs, path: string): Result<Configurations, ConfigError> {
    if path !in fs.files || path in fs.denied then Failure(IoFailure)
    else match Load(Files.Lines(fs.files[path]))
      case Failure(e) => Failure(e)
      case Success(m) => Success(Configurations(m))
  }

  /** configurations_t(path). */
  method FromFile(fs: Fs, path: string) returns (r: Result<Configurations, ConfigError>)
    ensures r == FromFileSpec(fs, path)
  {
    if path !in fs.files || path in fs.denied {
      return Failure(IoFailure);
    }
    var loaded := LoadLines(Files.Lines(fs.files[path]));
    if loaded.Failure? {
      return Failure(loaded.error);
    }
    return Success(Configurations(loaded.value));
  }

  /** configurations_t(path, options): the file's values, with the options' values winning on shared keys. */
  function FromFileAndOptions(fs: Fs, path: string, options: map<string, string>): (r: Result<Configurations, ConfigError>)
    ensures r.Success? <==> FromFileSpec(fs, path).Success?
    ensures r.Success? ==>
      && r.value.config.Keys == FromFileSpec(fs, path).value.config.Keys + options.Keys
      && (forall k :: k in options ==> r.value.config[k] == options[k])
      && (forall k :: k in FromFileSpec(fs, path).value.config && k !in options ==>
            r.value.config[k] == FromFileSpec(fs, path).value.config[k])
  {
    match FromFileSpec(fs, path)
    case Failure(e) => Failure(e)
    case Success(c) => Success(Configurations(c.config + options))
  }

  // ---------------------------------------------------------------- getters

  /** contains(key). */
  predicate Contains(c: Configurations, key: string) {
    key in c.config
  }

  /** get(key), and get_as<std::string>(key): the stored value or out_of_range. */
  function Get(c: Configurations, key: string): (r: Result<string, ConfigError>)
    ensures r.Success? <==> Contains(c, key)
    ensures r.Success? ==> r.value == c.config[key]
    ensures r.Failure? ==> r.error == OutOfRange
  {
    if key in c.config then Success(c.config[key]) else Failure(OutOfRange)
  }

  /** get_as<std::string>(key, alternative). */
  function GetStringOr(c: Configurations, key: string, alternative: string): (r: string)
    ensures Get(c, key).Success? ==> r == Get(c, key).value
    ensures Get(c, key).Failure? ==> r == alternative
  {
    if key in c.config then c.config[key] else alternative
  }

  /** The bool conversion: anything but "", "0", "false" and "nullptr" is true. */
  predicate Truthy(value: string) {
    value != "" && value != "0" && value != "false" && value != "nullptr"
  }

  /** get_as<bool>(key). */
  function GetBool(c: Configurations, key: string): (r: Result<bool, ConfigError>)
    ensures r.Success? <==> Contains(c, key)
    ensures r.Failure? ==> r.error == OutOfRange
    ensures r.Success? ==> (!r.value <==> c.config[key] in {"", "0", "false", "nullptr"})
  {
    if key in c.config then Success(Truthy(c.config[key])) else Failure(OutOfRange)
  }

  /** get_as<bool>(key, alternative). */
  function GetBoolOr(c: Configurations, key: string, alternative: bool): (r: bool)
    ensures GetBool(c, key).Success? ==> r == GetBool(c, key).value
    ensures GetBool(c, key).Failure? ==> r == alternative
  {
    if key in c.config then Truthy(c.config[key]) else alternative
  }

  /**
   * The string and bool getters with an alternative give what the getters
   * without one give, and the alternative exactly when those throw
   * out_of_range; none of them can throw bad_cast.
   */
  lemma AlternativeGetters(c: Configurations, key: string, s: string, b: bool)
    ensures GetStringOr(c, key, s) == (match Get(c, key) case Success(v) => v case Failure(_) => s)
    ensures GetBoolOr(c, key, b) == (match GetBool(c, key) case Success(v) => v case Failure(_) => b)
    ensures GetBool(c, key).Failure? <==> Get(c, key).Failure?
    ensures GetBool(c, key).Failure? ==> GetBool(c, key).error == OutOfRange
  {
  }

  /** Which stored values read as true. */
  lemma BoolExamples(key: string)
    ensures forall v :: v in ["", "0", "false", "nullptr"] ==> GetBool(Configurations(map[key := v]), key) == Success(false)
    ensures forall v :: v in ["1", "true", "yes", "False", " "] ==> GetBool(Configurations(map[key := v]), key) == Success(true)
  {
  }

  // ---------------------------------------------------------------- integers

  /** isspace in the "C" locale: the characters operator>> skips first. */
  predicate IsSpace(c: char) {
    c == ' ' || c == '\t' || c == '\n' || c == '\U{0B}' || c == '\U{0C}' || c == '\r'
  }

  predicate IsDecimalDigit(c: char) {
    '0' <= c <= '9'
  }

  const INT_MIN: int := -0x8000_0000
  const INT_MAX: int := 0x7fff_ffff

  /**
   * The result of `istringstream{s} >> t` for an int t: the value stored in
   * t (None: left as it was), and the fail and eof bits afterwards.
   */
  datatype Extraction = Extraction(value: Option<int>, fail: bool, eof: bool)

  /**
   * operator>>(int&): skip white space (eof and fail at the end, t untouched);
   * then an optional sign and decimal digits. No digit stores 0 and fails;
   * a value outside int stores the nearest bound and fails. eof is set when
   * the characters read reach the end.
   */
  function ExtractInt(s: string): (x: Extraction)
    ensures x.value.None? <==> forall k :: 0 <= k < |s| ==> IsSpace(s[k])
    ensures x.value.Some? ==> INT_MIN <= x.value.value <= INT_MAX
  {
    var ws := Span(s, IsSpace);
    SpanIsMaximal(s, IsSpace);
    var rest := s[ws..];
    if rest == "" then Extraction(None, true, true)
    else
      var sign := if rest[0] == '-' || rest[0] == '+' then 1 else 0;
      var n := Span(rest[sign..], IsDecimalDigit);
      var eof := sign + n == |rest|;
      if n == 0 then Extraction(Some(0), true, eof)
      else
        var digits := rest[sign..][..n];
        SpanIsDigits(rest[sign..]);
        var magnitude: int := DigitsValue(digits, 10);
        var v := if rest[0] == '-' then -magnitude else magnitude;
        if v > INT_MAX then Extraction(Some(INT_MAX), true, eof)
        else if v < INT_MIN then Extraction(Some(INT_MIN), true, eof)
        else Extraction(Some(v), false, eof)
  }

  /** The run of decimal digits at the front of a text is a numeral. */
  lemma SpanIsDigits(t: string)
    ensures AllDigits(t[..Span(t, IsDecimalDigit)], 10)
  {
    var n := Span(t, IsDecimalDigit);
    SpanIsMaximal(t, IsDecimalDigit);
    forall k | 0 <= k < n ensures IsDigitIn(t[..n][k], 10) {
      assert IsDecimalDigit(t[k]);
    }
  }


  /**
   * get_as<int>(key) as written: out_of_range for an absent key, bad_cast
   * unless the value is non-empty and extraction reached its end. The fail
   * bit is not consulted, so a value that only reaches the end by failing is
   * returned; `indeterminate` stands for the uninitialised `T t` that a
   * value of white space leaves as it was.
   */
  function GetInt(c: Configurations, key: string, indeterminate: int): (r: Result<int, ConfigError>)
    ensures r.Failure? ==> (r.error == OutOfRange <==> !Contains(c, key)) && (r.error == OutOfRange || r.error == BadCast)
    ensures r.Success? ==> Contains(c, key) && c.config[key] != "" && ExtractInt(c.config[key]).eof
    ensures r.Success? && ExtractInt(c.config[key]).value.Some? ==> INT_MIN <= r.value <= INT_MAX
    ensures Contains(c, key) && c.config[key] != "" && ExtractInt(c.config[key]).eof ==>
      r == Success(ExtractInt(c.config[key]).value.GetOr(indeterminate))
  {
    if key !in c.config then Failure(OutOfRange)
    else
      var value := c.config[key];
      var x := ExtractInt(value);
      if value != "" && x.eof then Success(x.value.GetOr(indeterminate)) else Failure(BadCast)
  }

  /** get_as<int>(key, alternative): t starts as the alternative. */
  function GetIntOr(c: Configurations, key: string, alternative: int): (r: int)
    ensures !Contains(c, key) ==> r == alternative
    ensures GetInt(c, key, alternative).Success? ==> r == GetInt(c, key, alternative).value
    ensures GetInt(c, key, alternative).Failure? ==> r == alternative
  {
    if key !in c.config then alternative
    else
      var value := c.config[key];
      var x := ExtractInt(value);
      if value != "" && x.eof then x.value.GetOr(alternative) else alternative
  }

  /** The getter with an alternative is the one without, where the uninitialised t is the alternative. */
  lemma IntAlternative(c: Configurations, key: string, alternative: int)
    ensures GetIntOr(c, key, alternative) == GetInt(c, key, alternative).GetOr(alternative)
    ensures GetInt(c, key, alternative).Failure? ==> GetIntOr(c, key, alternative) == alternative
  {
  }

  /**
   * get_as<int>(key) as intended by its documentation: bad_cast whenever the
   * value cannot be converted, i.e. also when extraction failed.
   */
  function GetIntStrict(c: Configurations, key: string): (r: Result<int, ConfigError>)
    ensures r.Failure? ==> (r.error == OutOfRange <==> !Contains(c, key)) && (r.error == OutOfRange || r.error == BadCast)
    ensures r.Success? ==> Contains(c, key) && INT_MIN <= r.value <= INT_MAX && ExtractInt(c.config[key]).value == Some(r.value)
  {
    if key !in c.config then Failure(OutOfRange)
    else
      var value := c.config[key];
      var x := ExtractInt(value);
      if value != "" && x.eof && !x.fail then Success(x.value.GetOr(0)) else Failure(BadCast)
  }
  /**
   * get_as<int>(key, alternative) as intended by its documentation: the
   * alternative when the key is absent or the value cannot be converted.
   */
  function GetIntStrictOr(c: Configurations, key: string, alternative: int): (r: int)
    ensures GetIntStrict(c, key).Success? ==> r == GetIntStrict(c, key).value
    ensures GetIntStrict(c, key).Failure? ==> r == alternative
  {
    if key !in c.config then alternative
    else
      var value := c.config[key];
      var x := ExtractInt(value);
      if value != "" && x.eof && !x.fail then x.value.GetOr(alternative) else alternative
  }


  /** "1a" and "" are refused by both getters. */
  lemma RefusedValues(key: string, indeterminate: int)
    ensures GetInt(Configurations(map[key := "1a"]), key, indeterminate) == Failure(BadCast)
    ensures GetInt(Configurations(map[key := ""]), key, indeterminate) == Failure(BadCast)
    ensures GetIntStrict(Configurations(map[key := "1a"]), key) == Failure(BadCast)
  {
    assert Span("1a", IsSpace) == 0 && "1a"[0..] == "1a";
    assert Span("1a", IsDecimalDigit) == 1;
  }

  /**
   * As written, get_as<int> of "-" returns 0 instead of throwing bad_cast:
   * the sign is read, no digit follows, fail and eof are both set, and only
   * eof is checked. The corrected getter refuses it.
   */
  lemma SignAloneReadsAsZero(key: string, indeterminate: int)
    ensures GetInt(Configurations(map[key := "-"]), key, indeterminate) == Success(0)
    ensures GetIntStrict(Configurations(map[key := "-"]), key) == Failure(BadCast)
  {
    SignAloneExtraction();
  }

  /**
   * The getter with an alternative has the same gap: as written it returns 0
   * for "-" instead of the alternative; the corrected one returns the
   * alternative.
   */
  lemma SignAloneIgnoresAlternative(key: string, alternative: int)
    ensures GetIntOr(Configurations(map[key := "-"]), key, alternative) == 0
    ensures GetIntStrictOr(Configurations(map[key := "-"]), key, alternative) == alternative
  {
    SignAloneExtraction();
  }

  /** Extracting from "-": no digit after the sign, so 0 is stored with fail and eof set. */
  lemma SignAloneExtraction()
    ensures ExtractInt("-") == Extraction(Some(0), true, true)
  {
    assert Span("-", IsSpace) == 0 && "-"[0..] == "-";
    assert "-"[1..] == "" && Span("", IsDecimalDigit) == 0;
  }

  /** The corrected getter succeeds only when extraction consumed the value without failing. */
  lemma StrictMeansConverted(c: Configurations, key: string)
    ensures GetIntStrict(c, key).Success? <==>
      key in c.config && c.config[key] != "" && ExtractInt(c.config[key]).eof && !ExtractInt(c.config[key]).fail
    ensures GetIntStrict(c, key).Success? ==> ExtractInt(c.config[key]).value == Some(GetIntStrict(c, key).value)
  {
    if GetIntStrict(c, key).Success? {
      assert ExtractInt(c.config[key]).value.Some?;
    }
  }

  /** Every int within range, written in decimal, reads back through the corrected getter. */
  lemma StrictRoundTrip(key: string, n: int)
    requires INT_MIN <= n <= INT_MAX
    ensures GetIntStrict(Configurations(map[key := Decimal(n)]), key) == Success(n)
  {
    ExtractDecimal(n);
  }

  /**
   * On the decimal text of an int the getters as written agree with the
   * corrected ones: they differ only on text whose extraction fails.
   */
  lemma AsWrittenRoundTrip(key: string, n: int, indeterminate: int, alternative: int)
    requires INT_MIN <= n <= INT_MAX
    ensures GetInt(Configurations(map[key := Decimal(n)]), key, indeterminate) == Success(n)
    ensures GetIntOr(Configurations(map[key := Decimal(n)]), key, alternative) == n
    ensures GetIntStrictOr(Configurations(map[key := Decimal(n)]), key, alternative) == n
  {
    ExtractDecimal(n);
    assert Decimal(n) != "" by {
      NatDigitsAreDigits(if n < 0 then -n else n, 10);
    }
  }

  /** Extraction reads the whole decimal text of an int back, without failing. */
  lemma ExtractDecimal(n: int)
    requires INT_MIN <= n <= INT_MAX
    ensures ExtractInt(Decimal(n)) == Extraction(Some(n), false, true)
  {
    var s := Decimal(n);
    var m: nat := if n < 0 then -n else n;
    var d := NatDigits(m, 10);
    var sign := if n < 0 then 1 else 0;
    assert |d| >= 1 && DigitsValue(d, 10) == m && Span(d, IsDecimalDigit) == |d| by {
      NatDigitsRoundTrip(m, 10);
      forall k | 0 <= k < |d| ensures IsDecimalDigit(d[k]) {
        assert IsDigitIn(d[k], 10);
      }
      SpanAll(d, IsDecimalDigit);
    }
    assert s[sign..] == d && s[sign..][..|d|] == d && |s| == sign + |d|;
    assert !IsSpace(s[0]) && (s[0] == '-' || s[0] == '+' <==> n < 0) && (s[0] == '-' <==> n < 0) by {
      if n >= 0 {
        NatDigitsRoundTrip(m, 10);
        assert s[0] == d[0] && IsDigitIn(d[0], 10);
      }
    }
    assert Span(s, IsSpace) == 0;
    assert s[0..] == s;
  }


  lemma SpanAll(s: string, p: char -> bool)
    requires forall k :: 0 <= k < |s| ==> p(s[k])
    ensures Span(s, p) == |s|
  {
    SpanOfRun(s, [], p);
    assert s + [] == s;
  }
}
