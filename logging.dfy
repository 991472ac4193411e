/**
 * logger_t: the level filter, the three sinks of log_ and the daily-rotation
 * state machine over path_, daily_ and the output stream.
 *
 * The clock, the thread id, the function-name regular expression and the
 * failures of the console and external sinks are inputs (Env); the file
 * system, the standard-error stream and the syslog are a value (World) that
 * every operation takes and gives back.
 */
module Logging {
  import opened Wrappers
  import opened Text
  import opened Levels
  import opened FileSystem
  import Format

  /** The fields of std::tm the logger reads: calendar year, month 1-12, day of month, day of year. */
  datatype Day = Day(year: int, month: nat, mday: nat, yday: nat)

  /** needs_rotation compares tm_year and tm_yday only. */
  predicate SameDay(a: Day, b: Day) {
    a.year == b.year && a.yday == b.yday
  }

  /** The exceptions the logger raises. */
  datatype Error =
    | InvalidArgument             // validate_argument
    | LogicError                  // std::logic_error
    | RuntimeError                // std::runtime_error
    | IoFailure                   // std::ios_base::failure from ofstream::open
    | FilesystemError(cause: FsError)  // std::filesystem::filesystem_error from rename

  /** What one call of log_ or set_path learns from its surroundings. */
  datatype Env = Env(
    timestamp: string,                    // "%FT%T." + microseconds + "%z"
    today: Day,                           // the local time of the call
    threadId: nat,                        // std::this_thread::get_id()
    extract: string -> Option<string>,    // group 1 of the function-name expression
    consoleFails: bool,                   // writing to std::clog throws
    externalFails: bool)                  // openlog/syslog throws

  /** One call of syslog: the ident given to openlog, the priority and the text. */
  datatype SyslogRecord = SyslogRecord(ident: string, severity: nat, message: string)

  datatype World = World(fs: Fs, console: seq<string>, syslog: seq<SyslogRecord>)

  /** path_, daily_ and whether ofs_ is open. */
  datatype FileState = FileState(path: string, daily: Option<Day>, open: bool)

  /** The settings and the file state of one logger_t. */
  datatype LoggerState = LoggerState(level: Level, external: string, console: bool, file: FileState)

  /** An open stream has a path, and a day is only recorded for a path. */
  predicate FileStateValid(f: FileState) {
    (f.open ==> f.path != "") && (f.path == "" ==> f.daily.None?)
  }

  /** needs_rotation(lt): a day is recorded, it is not lt's day, and the log file exists. */
  predicate NeedsRotation(f: FileState, fs: Fs, today: Day) {
    f.daily.Some? && !SameDay(f.daily.value, today) && Exists(fs, f.path)
  }

  // ---------------------------------------------------------------- previous path

  /** put_time with "%Y%m%d". */
  function Stamp(d: Day): string {
    Decimal(d.year) + PadLeft(NatDigits(d.month, 10), 2, '0') + PadLeft(NatDigits(d.mday, 10), 2, '0')
  }

  /** get_previous_path_ retries ".0" up to ".10" after the plain name. */
  const MAX_RETRY: nat := 10

  /** The number of names get_previous_path_ tries. */
  const CANDIDATES: nat := MAX_RETRY + 2

  /** The k-th file name tried: the base name for k = 0, then base + "." + (k - 1). */
  function CandidateName(base: string, k: nat): string {
    if k == 0 then base else base + "." + Decimal(k - 1)
  }

  /** The k-th path tried, in the log file's directory. */
  function Candidate(path: string, base: string, k: nat): string {
    ReplaceFilename(path, CandidateName(base, k))
  }

  /** The first candidate from k on that does not exist, or runtime_error. */
  function FirstFree(fs: Fs, path: string, base: string, k: nat): Result<string, Error>
    requires k <= CANDIDATES
    decreases CANDIDATES - k
  {
    if k == CANDIDATES then Failure(RuntimeError)
    else if !Taken(fs, path, base, k) then Success(Candidate(path, base, k))
    else FirstFree(fs, path, base, k + 1)
  }

  /** The base name for the old log file: its file name followed by the recorded day. */
  function RotatedBase(path: string, d: Day): string {
    Filename(path) + Stamp(d)
  }

  /** get_previous_path_: the name the current log file is renamed to on a change of day. */
  function PreviousPath(f: FileState, fs: Fs): Result<string, Error> {
    if f.daily.None? then Failure(LogicError)
    else FirstFree(fs, f.path, RotatedBase(f.path, f.daily.value), 0)
  }

  /** Name k is taken. */
  predicate Taken(fs: Fs, path: string, base: string, k: nat) {
    Exists(fs, Candidate(path, base, k))
  }

  /** Candidate j is free and every candidate from k up to it is taken. */
  predicate FirstFreeFrom(fs: Fs, path: string, base: string, k: nat, j: nat) {
    k <= j < CANDIDATES && !Taken(fs, path, base, j)
    && forall i :: k <= i < j ==> Taken(fs, path, base, i)
  }

  /** FirstFree fails, and then with runtime_error, exactly when every candidate from k on is taken. */
  lemma {:induction false} FirstFreeFails(fs: Fs, path: string, base: string, k: nat)
    requires k <= CANDIDATES
    ensures FirstFree(fs, path, base, k).Failure? <==> forall j :: k <= j < CANDIDATES ==> Taken(fs, path, base, j)
    ensures FirstFree(fs, path, base, k).Failure? ==> FirstFree(fs, path, base, k).error == RuntimeError
    decreases CANDIDATES - k
  {
    if k < CANDIDATES {
      if Taken(fs, path, base, k) {
        FirstFreeFails(fs, path, base, k + 1);
        assert FirstFree(fs, path, base, k) == FirstFree(fs, path, base, k + 1);
        if FirstFree(fs, path, base, k).Failure? {
          forall j | k <= j < CANDIDATES ensures Taken(fs, path, base, j) {
            if j > k {
              assert k + 1 <= j;
            }
          }
        }
      } else {
        assert FirstFree(fs, path, base, k).Success?;
      }
    }
  }

  /** When FirstFree succeeds it gives the first free candidate from k on. */
  lemma {:induction false} FirstFreeIsFirst(fs: Fs, path: string, base: string, k: nat)
    requires k <= CANDIDATES
    requires FirstFree(fs, path, base, k).Success?
    ensures exists j :: FirstFreeFrom(fs, path, base, k, j) && FirstFree(fs, path, base, k).value == Candidate(path, base, j)
    decreases CANDIDATES - k
  {
    if !Taken(fs, path, base, k) {
      assert FirstFreeFrom(fs, path, base, k, k);
    } else {
      FirstFreeIsFirst(fs, path, base, k + 1);
      var j :| FirstFreeFrom(fs, path, base, k + 1, j) && FirstFree(fs, path, base, k + 1).value == Candidate(path, base, j);
      assert FirstFreeFrom(fs, path, base, k, j);
    }
  }

  /**
   * get_previous_path_ fails with logic_error exactly when no day is
   * recorded, with runtime_error exactly when all twelve names are taken, and
   * otherwise gives the first free name.
   */
  lemma PreviousPathOutcome(f: FileState, fs: Fs)
    ensures var r := PreviousPath(f, fs);
      && (r == Failure(LogicError) <==> f.daily.None?)
      && (f.daily.Some? ==>
            var base := RotatedBase(f.path, f.daily.value);
            && (r == Failure(RuntimeError) <==> forall j :: 0 <= j < CANDIDATES ==> Taken(fs, f.path, base, j))
            && (r.Success? ==> exists j :: FirstFreeFrom(fs, f.path, base, 0, j) && r.value == Candidate(f.path, base, j)))
  {
    if f.daily.Some? {
      var base := RotatedBase(f.path, f.daily.value);
      FirstFreeFails(fs, f.path, base, 0);
      if PreviousPath(f, fs).Success? {
        FirstFreeIsFirst(fs, f.path, base, 0);
      }
    }
  }

  /** A numeral has no '/'. */
  lemma DigitsNoSlash(s: string)
    requires AllDigits(s, 10)
    ensures NoSlash(s)
  {
    forall i | 0 <= i < |s| ensures s[i] != '/' {
      assert IsDigitIn(s[i], 10);
    }
  }

  lemma NoSlashConcat(a: string, b: string)
    requires NoSlash(a) && NoSlash(b)
    ensures NoSlash(a + b)
  {
    forall i | 0 <= i < |a + b| ensures (a + b)[i] != '/' {
      if i >= |a| { assert (a + b)[i] == b[i - |a|]; }
    }
  }

  lemma DecimalNoSlash(i: int)
    ensures NoSlash(Decimal(i))
  {
    NatDigitsAreDigits(if i < 0 then -i else i, 10);
    DigitsNoSlash(NatDigits(if i < 0 then -i else i, 10));
    if i < 0 {
      NoSlashConcat("-", NatDigits(-i, 10));
    }
  }

  lemma PaddedNoSlash(n: nat)
    ensures NoSlash(PadLeft(NatDigits(n, 10), 2, '0'))
  {
    NatDigitsAreDigits(n, 10);
    DigitsNoSlash(NatDigits(n, 10));
    if |NatDigits(n, 10)| < 2 {
      NoSlashConcat(Repeat('0', 2 - |NatDigits(n, 10)|), NatDigits(n, 10));
    }
  }

  /** Every name get_previous_path_ tries is a plain file name. */
  lemma CandidateNamesNoSlash(path: string, d: Day, n: nat)
    ensures NoSlash(CandidateName(RotatedBase(path, d), n))
  {
    DecimalNoSlash(d.year);
    PaddedNoSlash(d.month);
    PaddedNoSlash(d.mday);
    NoSlashConcat(Decimal(d.year), PadLeft(NatDigits(d.month, 10), 2, '0'));
    NoSlashConcat(Decimal(d.year) + PadLeft(NatDigits(d.month, 10), 2, '0'), PadLeft(NatDigits(d.mday, 10), 2, '0'));
    NoSlashConcat(Filename(path), Stamp(d));
    NoSlashConcat(RotatedBase(path, d), ".");
    if n > 0 {
      DecimalNoSlash(n - 1);
      NoSlashConcat(RotatedBase(path, d) + ".", Decimal(n - 1));
    }
  }

  /** Replacing the file name twice is replacing it once, when the first name is a plain one. */
  lemma ReplaceTwice(p: string, a: string, b: string)
    requires NoSlash(a)
    ensures ReplaceFilename(ReplaceFilename(p, a), b) == ReplaceFilename(p, b)
  {
  }

  // ---------------------------------------------------------------- opening, set_path, writing

  /** The outcome of one step on the file state: the exception it raised, the new state, the file system. */
  datatype FileStep = FileStep(result: Result<(), Error>, file: FileState, fs: Fs)

  /** open_logfile_(path, lt). */
  function OpenLogfileSpec(f: FileState, path: string, lt: Option<Day>, fs: Fs): FileStep {
    if f.open then FileStep(Failure(LogicError), f, fs)
    else if path == "" then FileStep(Success(()), FileState("", None, false), fs)
    else match OpenAppend(fs, path)
      case Failure(_) => FileStep(Failure(IoFailure), FileState("", None, false), fs)
      case Success(fs') => FileStep(Success(()), FileState(path, lt, true), fs')
  }

  /** rename(path_, get_previous_path_()): the file system after moving the old log file away. */
  function RotateSpec(f: FileState, fs: Fs): (r: Result<Fs, Error>)
    ensures r.Success? ==> r.value.denied == fs.denied && r.value.locked == fs.locked
  {
    match PreviousPath(f, fs)
    case Failure(e) => Failure(e)
    case Success(previous) =>
      match Rename(fs, f.path, previous)
      case Failure(e) => Failure(FilesystemError(e))
      case Success(fs') => Success(fs')
  }

  /** With a day recorded, moving the old file away fails only for want of a free name or in the rename itself. */
  lemma RotateErrors(f: FileState, fs: Fs)
    requires f.daily.Some? && RotateSpec(f, fs).Failure?
    ensures RotateSpec(f, fs).error == RuntimeError || RotateSpec(f, fs).error.FilesystemError?
  {
    FirstFreeFails(fs, f.path, RotatedBase(f.path, f.daily.value), 0);
  }

  /** set_path(path, daily): close, rotate if the day changed, open the new path. */
  function SetPathSpec(f: FileState, path: string, daily: bool, today: Day, fs: Fs): FileStep {
    var closed := f.(open := false);
    var lt := if daily then Some(today) else None;
    if NeedsRotation(closed, fs, today) then
      match RotateSpec(closed, fs)
      case Failure(e) => FileStep(Failure(e), closed, fs)
      case Success(fs') => OpenLogfileSpec(closed, path, lt, fs')
    else OpenLogfileSpec(closed, path, lt, fs)
  }

  /** The last part of the file sink: record today, then append the line if the stream is open. */
  function Written(f: FileState, line: string, today: Day, fs: Fs): FileStep {
    var f' := f.(daily := Some(today));
    FileStep(Success(()), f', if f'.open then Append(fs, f'.path, line + "\n") else fs)
  }

  /**
   * The file sink of log_: on a change of day close the stream, move the old
   * file away and reopen the path with the old day; then record today and
   * append the line. An exception ends the step where it is raised.
   */
  function FileSinkSpec(f: FileState, line: string, today: Day, fs: Fs): FileStep {
    if NeedsRotation(f, fs, today) then
      var closed := f.(open := false);
      match RotateSpec(closed, fs)
      case Failure(e) => FileStep(Failure(e), closed, fs)
      case Success(fs') =>
        var reopened := OpenLogfileSpec(closed, f.path, f.daily, fs');
        if reopened.result.Failure? then reopened
        else Written(reopened.file, line, today, reopened.fs)
    else Written(f, line, today, fs)
  }

  // ---------------------------------------------------------------- log_

  /** What std::clog receives for one record: colour, line, reset, end of line. */
  function ConsoleText(level: Level, line: string): (text: string)
    ensures |text| == |ColourPrefix(level)| + |line| + |ColourReset| + 1
  {
    ColourPrefix(level) + line + ColourReset + "\n"
  }

  /** The line a console text carries for a known level: what lies between the colour and the reset. */
  function ConsoleLine(level: Level, text: string): (line: string)
    requires |text| >= |ColourPrefix(level)| + |ColourReset| + 1
  {
    text[|ColourPrefix(level)|..|text| - |ColourReset| - 1]
  }

  /**
   * A console text starts with the level's colour, carries the line
   * unchanged and ends with the reset and a newline; the line can be read
   * back, and for a record level the colour tells which level it was.
   */
  lemma ConsoleTextShape(level: Level, line: string)
    ensures var text := ConsoleText(level, line);
      && text[..|ColourPrefix(level)|] == ColourPrefix(level)
      && text[|text| - |ColourReset| - 1..] == ColourReset + "\n"
      && ConsoleLine(level, text) == line
    ensures forall other: Level :: IsRecordLevel(level) && IsRecordLevel(other) && other != level ==>
      ColourPrefix(other) != ColourPrefix(level)
  {
    var p, e := ColourPrefix(level), ColourReset + "\n";
    var text := ConsoleText(level, line);
    assert text == p + line + e;
    assert text[..|p|] == p;
    assert text[|p| + |line|..] == e;
    assert text[|p|..|p| + |line|] == line;
    forall other: Level | IsRecordLevel(level) && IsRecordLevel(other) && other != level
      ensures ColourPrefix(other) != ColourPrefix(level)
    {
      ColourPrefixesDistinct(other, level);
    }
  }

  /** The outcome of log_: the exception it raised, the new file state and the world. */
  datatype LogStep = LogStep(result: Result<(), Error>, file: FileState, world: World)

  /**
   * log_(level, pos, message): reject the two sentinel levels, drop a record
   * above the threshold, and otherwise format the line once and hand it to
   * the console, the file and the external sink, each of which swallows its
   * own exception.
   */
  function LogSpec(s: LoggerState, level: Level, pos: Option<Format.Position>, message: string, env: Env, w: World): LogStep {
    if level == Silent || level == All then LogStep(Failure(InvalidArgument), s.file, w)
    else if !Passes(s.level, level) then LogStep(Success(()), s.file, w)
    else
      var line := Format.FormatLine(env.timestamp, level, env.threadId, pos, env.extract, message);
      var console := if s.console && !env.consoleFails then w.console + [ConsoleText(level, line)] else w.console;
      var sink := if s.file.path != "" then FileSinkSpec(s.file, line, env.today, w.fs)
                  else FileStep(Success(()), s.file, w.fs);
      var syslog := if s.external != "" && !env.externalFails
                    then w.syslog + [SyslogRecord(s.external, SyslogSeverity(level), line)]
                    else w.syslog;
      LogStep(Success(()), sink.file, World(sink.fs, console, syslog))
  }

  // ---------------------------------------------------------------- properties of log_

  /** log_ refuses Silent and All with invalid_argument before touching anything. */
  lemma LogRejectsSentinels(s: LoggerState, level: Level, pos: Option<Format.Position>, message: string, env: Env, w: World)
    ensures LogSpec(s, level, pos, message, env, w).result.Failure? <==> !IsRecordLevel(level)
    ensures !IsRecordLevel(level) ==>
      LogSpec(s, level, pos, message, env, w) == LogStep(Failure(InvalidArgument), s.file, w)
  {
  }

  /** A record above the logger's level is dropped without touching any sink or the file state. */
  lemma FilteredRecordTouchesNothing(s: LoggerState, level: Level, pos: Option<Format.Position>, message: string, env: Env, w: World)
    requires IsRecordLevel(level) && !Passes(s.level, level)
    ensures LogSpec(s, level, pos, message, env, w) == LogStep(Success(()), s.file, w)
  {
  }

  /**
   * Which sinks receive a record: the console iff console output is on, the
   * record passes and writing does not fail; the external logger iff its name
   * is set, the record passes and the call does not fail; the file system
   * and the file state only change if the record passes and a path is set.
   * Each sink only ever appends.
   */
  lemma SinksFire(s: LoggerState, level: Level, pos: Option<Format.Position>, message: string, env: Env, w: World)
    ensures var step := LogSpec(s, level, pos, message, env, w);
      var line := Format.FormatLine(env.timestamp, level, env.threadId, pos, env.extract, message);
      var emitted := IsRecordLevel(level) && Passes(s.level, level);
      && (|step.world.console| > |w.console| <==> emitted && s.console && !env.consoleFails)
      && (|step.world.console| > |w.console| ==> step.world.console == w.console + [ConsoleText(level, line)])
      && (|step.world.console| <= |w.console| ==> step.world.console == w.console)
      && (|step.world.syslog| > |w.syslog| <==> emitted && s.external != "" && !env.externalFails)
      && (|step.world.syslog| > |w.syslog| ==>
            step.world.syslog == w.syslog + [SyslogRecord(s.external, SyslogSeverity(level), line)])
      && (|step.world.syslog| <= |w.syslog| ==> step.world.syslog == w.syslog)
      && (!emitted || s.file.path == "" ==> step.world.fs == w.fs && step.file == s.file)
  {
  }

  /**
   * Each sink's failure stays inside it: whether the console or the
   * external logger throws changes nothing in the file state or the file
   * system, and what the file system holds changes nothing in what the
   * console and the external logger receive.
   */
  lemma SinkIsolation(s: LoggerState, level: Level, pos: Option<Format.Position>, message: string, env: Env, w: World,
                      consoleFails: bool, externalFails: bool, fs: Fs)
    ensures var a := LogSpec(s, level, pos, message, env, w);
      var b := LogSpec(s, level, pos, message, env.(consoleFails := consoleFails, externalFails := externalFails), w.(fs := fs));
      && a.result == b.result
      && (fs == w.fs ==> a.file == b.file && a.world.fs == b.world.fs)
      && (consoleFails == env.consoleFails ==> a.world.console == b.world.console)
      && (externalFails == env.externalFails ==> a.world.syslog == b.world.syslog)
  {
  }

  // ---------------------------------------------------------------- properties of the file sink

  /** On the recorded day (or with none recorded) the line is appended to the open log file. */
  lemma SameDayAppends(f: FileState, line: string, today: Day, fs: Fs)
    requires FileStateValid(f) && f.open && f.path in fs.files
    requires f.daily.None? || SameDay(f.daily.value, today)
    ensures FileSinkSpec(f, line, today, fs)
      == FileStep(Success(()), FileState(f.path, Some(today), true),
                  fs.(files := fs.files[f.path := fs.files[f.path] + (line + "\n")]))
  {
  }

  /**
   * On a new day the old file moves to get_previous_path_'s name, keeping
   * its contents, and the line starts a fresh file at the same path; the
   * other files are untouched and today is recorded.
   */
  lemma {:induction false} DayChangeRotates(f: FileState, line: string, today: Day, fs: Fs, previous: string)
    requires f.path != "" && f.daily.Some? && !SameDay(f.daily.value, today) && f.path in fs.files
    requires PreviousPath(f, fs) == Success(previous)
    requires f.path !in fs.locked && previous !in fs.locked && f.path !in fs.denied
    ensures var step := FileSinkSpec(f, line, today, fs);
      && step.result.Success?
      && step.file == FileState(f.path, Some(today), true)
      && previous in step.fs.files && step.fs.files[previous] == fs.files[f.path]
      && f.path in step.fs.files && step.fs.files[f.path] == line + "\n"
      && (forall p :: p != previous && p != f.path && p in fs.files ==> p in step.fs.files && step.fs.files[p] == fs.files[p])
      && step.fs.denied == fs.denied && step.fs.locked == fs.locked
  {
    RotatedWrite(f, line, today, fs, previous);
    var fs1 := Rename(fs, f.path, previous).value;
    assert previous != f.path;
    assert previous in fs1.files && fs1.files[previous] == fs.files[f.path];
  }

  /** The step DayChangeRotates describes: rename to the free name, reopen empty, append the line. */
  lemma RotatedWrite(f: FileState, line: string, today: Day, fs: Fs, previous: string)
    requires f.path != "" && f.daily.Some? && !SameDay(f.daily.value, today) && f.path in fs.files
    requires PreviousPath(f, fs) == Success(previous)
    requires f.path !in fs.locked && previous !in fs.locked && f.path !in fs.denied
    ensures previous != f.path && Rename(fs, f.path, previous).Success?
    ensures var fs1 := Rename(fs, f.path, previous).value;
      FileSinkSpec(f, line, today, fs)
        == FileStep(Success(()), FileState(f.path, Some(today), true), fs1.(files := fs1.files[f.path := line + "\n"]))
  {
    var closed := f.(open := false);
    assert PreviousPath(closed, fs) == PreviousPath(f, fs);
    PreviousPathOutcome(f, fs);
    var base := RotatedBase(f.path, f.daily.value);
    var j :| FirstFreeFrom(fs, f.path, base, 0, j) && previous == Candidate(f.path, base, j);
    assert previous !in fs.files;
    assert previous != f.path;
    var moved := Rename(fs, f.path, previous);
    assert moved.Success?;
    assert RotateSpec(closed, fs) == Success(moved.value);
    var fs1 := moved.value;
    assert f.path !in fs1.files;
    var reopened := OpenLogfileSpec(closed, f.path, f.daily, fs1);
    assert reopened == FileStep(Success(()), FileState(f.path, f.daily, true), fs1.(files := fs1.files[f.path := ""]));
    var fs2 := fs1.(files := fs1.files[f.path := ""]);
    assert NeedsRotation(f, fs, today);
    assert FileSinkSpec(f, line, today, fs) == Written(reopened.file, line, today, reopened.fs);
    assert Append(fs2, f.path, line + "\n") == fs1.(files := fs1.files[f.path := line + "\n"]) by {
      assert "" + (line + "\n") == line + "\n";
      UpdateTwice(fs1.files, f.path, "", line + "\n");
    }
  }

  /** A second update of the same key overrides the first. */
  lemma UpdateTwice(m: map<string, string>, k: string, a: string, b: string)
    ensures m[k := a][k := b] == m[k := b]
  {
  }

  /**
   * When the old file cannot be moved away (no free name, or the rename is
   * refused) the stream stays closed, the day is not updated and nothing is
   * written, so the next record tries again.
   */
  lemma RotationFailureKeepsDay(f: FileState, line: string, today: Day, fs: Fs)
    requires NeedsRotation(f, fs, today)
    requires RotateSpec(f, fs).Failure?
    ensures var step := FileSinkSpec(f, line, today, fs);
      && step.result.Failure? && step.result.error != LogicError
      && step.file == f.(open := false)
      && step.fs == fs
      && NeedsRotation(step.file, step.fs, today)
  {
    assert RotateSpec(f.(open := false), fs) == RotateSpec(f, fs);
    RotateErrors(f, fs);
  }

  /**
   * When the old file was moved away but the path cannot be reopened, the
   * logger forgets its path and day: it writes no file from then on.
   */
  lemma ReopenFailureStopsFile(f: FileState, line: string, today: Day, fs: Fs)
    requires f.path != "" && NeedsRotation(f, fs, today)
    requires RotateSpec(f, fs).Success? && f.path in fs.denied
    ensures FileSinkSpec(f, line, today, fs) == FileStep(Failure(IoFailure), FileState("", None, false), RotateSpec(f, fs).value)
  {
    var closed := f.(open := false);
    assert RotateSpec(closed, fs) == RotateSpec(f, fs);
    var fs1 := RotateSpec(f, fs).value;
    assert OpenAppend(fs1, f.path).Failure?;
    assert OpenLogfileSpec(closed, f.path, f.daily, fs1) == FileStep(Failure(IoFailure), FileState("", None, false), fs1);
  }

  /**
   * A single-file logger (no day recorded) records the day of its first
   * write, and from then on rotates like a daily one when the day changes.
   */
  lemma SingleFileLoggerAcquiresDay(f: FileState, line: string, today: Day, fs: Fs, later: Day, fs': Fs)
    requires f.path != "" && f.daily.None?
    ensures var step := FileSinkSpec(f, line, today, fs);
      && step.file == f.(daily := Some(today))
      && (NeedsRotation(step.file, fs', later) <==> !SameDay(today, later) && f.path in fs'.files)
  {
  }

  // ---------------------------------------------------------------- open_logfile_ and set_path

  /**
   * open_logfile_ refuses an open stream with logic_error; an empty path
   * clears path and day; a failed open clears both and raises; a successful
   * one records lt and creates the file if it was missing, leaving every
   * existing file as it was.
   */
  lemma OpenLogfileOutcome(f: FileState, path: string, lt: Option<Day>, fs: Fs)
    ensures var step := OpenLogfileSpec(f, path, lt, fs);
      && (f.open ==> step == FileStep(Failure(LogicError), f, fs))
      && (!f.open && path == "" ==> step == FileStep(Success(()), FileState("", None, false), fs))
      && (!f.open && path != "" && path in fs.denied ==> step == FileStep(Failure(IoFailure), FileState("", None, false), fs))
      && (!f.open && path != "" && path !in fs.denied ==>
            && step.result.Success? && step.file == FileState(path, lt, true)
            && path in step.fs.files
            && (forall p :: p in fs.files ==> p in step.fs.files && step.fs.files[p] == fs.files[p]))
  {
  }

  /**
   * set_path closes the stream, moves the old file away first when the day
   * changed, and then opens the new path: on success the stream is open iff
   * the path is non-empty, and the day is recorded iff `daily` is set.
   */
  lemma SetPathOutcome(f: FileState, path: string, daily: bool, today: Day, fs: Fs)
    ensures var step := SetPathSpec(f, path, daily, today, fs);
      && (step.result.Success? ==>
            && step.file.path == path
            && (step.file.open <==> path != "")
            && step.file.daily == (if daily && path != "" then Some(today) else None))
      && (!NeedsRotation(f, fs, today) ==> step == OpenLogfileSpec(f.(open := false), path, if daily then Some(today) else None, fs))
      && (NeedsRotation(f, fs, today) && RotateSpec(f, fs).Failure? ==>
            step == FileStep(Failure(RotateSpec(f, fs).error), f.(open := false), fs))
      && (NeedsRotation(f, fs, today) && RotateSpec(f, fs).Success? ==>
            step == OpenLogfileSpec(f.(open := false), path, if daily then Some(today) else None, RotateSpec(f, fs).value))
  {
    assert RotateSpec(f.(open := false), fs) == RotateSpec(f, fs);
    assert NeedsRotation(f.(open := false), fs, today) == NeedsRotation(f, fs, today);
  }

  /** open_logfile_ and set_path keep the file state valid. */
  lemma OpenAndSetPathKeepValidity(f: FileState, path: string, lt: Option<Day>, daily: bool, today: Day, fs: Fs)
    requires FileStateValid(f)
    ensures FileStateValid(OpenLogfileSpec(f, path, lt, fs).file)
    ensures FileStateValid(SetPathSpec(f, path, daily, today, fs).file)
  {
  }

  /** The file sink keeps the file state valid. */
  lemma FileSinkKeepsValidity(f: FileState, line: string, today: Day, fs: Fs)
    requires FileStateValid(f) && f.path != ""
    ensures FileStateValid(FileSinkSpec(f, line, today, fs).file)
  {
    var step := FileSinkSpec(f, line, today, fs);
    if NeedsRotation(f, fs, today) {
      var closed := f.(open := false);
      match RotateSpec(closed, fs)
      case Failure(_) =>
        assert step.file == closed;
      case Success(fs') =>
        var reopened := OpenLogfileSpec(closed, f.path, f.daily, fs');
        assert reopened.file == FileState("", None, false) || reopened.file.path == f.path;
        if reopened.result.Success? {
          assert reopened.file.path == f.path;
          assert step.file == reopened.file.(daily := Some(today));
        }
    } else {
      assert step.file == f.(daily := Some(today));
    }
  }

  /** log_ keeps the file state valid. */
  lemma LogKeepsValidity(s: LoggerState, level: Level, pos: Option<Format.Position>, message: string, env: Env, w: World)
    requires FileStateValid(s.file)
    ensures FileStateValid(LogSpec(s, level, pos, message, env, w).file)
  {
    if IsRecordLevel(level) && Passes(s.level, level) && s.file.path != "" {
      var line := Format.FormatLine(env.timestamp, level, env.threadId, pos, env.extract, message);
      FileSinkKeepsValidity(s.file, line, env.today, w.fs);
    }
  }

  // ---------------------------------------------------------------- logger_t

  /** logger_t: its settings, its log file state and the operations on them. */
  class Logger {
    var level: Level           // level_
    var path: string           // path_
    var external: string       // logger_
    var console: bool          // console_
    var daily: Option<Day>     // daily_
    var isOpen: bool           // ofs_.is_open()

    function File(): FileState
      reads this
    {
      FileState(path, daily, isOpen)
    }

    function State(): LoggerState
      reads this
    {
      LoggerState(level, external, console, File())
    }

    predicate Valid()
      reads this
    {
      FileStateValid(File())
    }

    /** logger_t(): level Info, no log file, no external logger, console on, no day. */
    constructor ()
      ensures State() == LoggerState(Levels.Info, "", true, FileState("", None, false))
      ensures Valid()
    {
      level := Levels.Info;
      path := "";
      external := "";
      console := true;
      daily := None;
      isOpen := false;
    }

    /** The member initialisers of the parameterised constructor, which then calls set_path. */
    constructor Configured(level: Level, external: string, console: bool)
      ensures State() == LoggerState(level, external, console, FileState("", None, false))
      ensures Valid()
    {
      this.level := level;
      path := "";
      this.external := external;
      this.console := console;
      daily := None;
      isOpen := false;
    }

    /** logger_t(level, path, logger, console, daily): fails when set_path throws. */
    static method Create(level: Level, path: string, external: string, console: bool, daily: bool, today: Day, fs: Fs)
      returns (r: Result<Logger, Error>, fs': Fs)
      ensures var step := SetPathSpec(FileState("", None, false), path, daily, today, fs);
        && fs' == step.fs
        && (r.Failure? <==> step.result.Failure?)
        && (r.Failure? ==> r.error == step.result.error)
        && (r.Success? ==>
              && fresh(r.value) && r.value.Valid()
              && r.value.State() == LoggerState(level, external, console, step.file))
    {
      var l := new Logger.Configured(level, external, console);
      var result;
      result, fs' := l.SetPath(path, daily, today, fs);
      OpenAndSetPathKeepValidity(FileState("", None, false), path, None, daily, today, fs);
      if result.Failure? {
        r := Failure(result.error);
      } else {
        r := Success(l);
      }
    }

    /** set_level. */
    method SetLevel(level: Level)
      modifies this
      ensures State() == old(State()).(level := level)
    {
      this.level := level;
    }

    /** set_console. */
    method SetConsole(on: bool)
      modifies this
      ensures State() == old(State()).(console := on)
    {
      console := on;
    }

    /** set_logger: the external logger name (the syslog ident). */
    method SetLogger(name: string)
      modifies this
      ensures State() == old(State()).(external := name)
    {
      external := name;
    }

    /**
     * get_previous_path_: the base name, then ".0" … ".10", the first that
     * does not exist; runtime_error once ".10" is taken as well.
     */
    method GetPreviousPath(fs: Fs) returns (r: Result<string, Error>)
      ensures r == PreviousPath(File(), fs)
    {
      if daily.None? {
        return Failure(LogicError);
      }
      var base := Filename(path) + Stamp(daily.value);
      CandidateNamesNoSlash(path, daily.value, 0);
      var p := ReplaceFilename(path, base);
      var n: nat := 0;
      while Exists(fs, p)
        invariant n < CANDIDATES
        invariant p == Candidate(path, base, n)
        invariant FirstFree(fs, path, base, n) == PreviousPath(File(), fs)
        decreases CANDIDATES - n
      {
        CandidateNamesNoSlash(path, daily.value, n);
        ReplaceTwice(path, CandidateName(base, n), base + "." + Decimal(n));
        p := ReplaceFilename(p, base + "." + Decimal(n));
        if MAX_RETRY < n {
          return Failure(RuntimeError);
        }
        n := n + 1;
      }
      return Success(p);
    }

    /** open_logfile_(path, lt). */
    method OpenLogfile(p: string, lt: Option<Day>, fs: Fs) returns (r: Result<(), Error>, fs': Fs)
      modifies this
      ensures OpenLogfileSpec(old(File()), p, lt, fs) == FileStep(r, File(), fs')
      ensures level == old(level) && external == old(external) && console == old(console)
    {
      if isOpen {
        return Failure(LogicError), fs;
      }
      path := p;
      if path == "" {
        daily := None;
        return Success(()), fs;
      }
      var attempt := OpenAppend(fs, p);
      if attempt.Failure? {
        path := "";
        daily := None;
        return Failure(IoFailure), fs;
      }
      isOpen := true;
      daily := lt;
      return Success(()), attempt.value;
    }

    /** set_path(path, daily). */
    method SetPath(p: string, dailyFile: bool, today: Day, fs: Fs) returns (r: Result<(), Error>, fs': Fs)
      modifies this
      ensures SetPathSpec(old(File()), p, dailyFile, today, fs) == FileStep(r, File(), fs')
      ensures level == old(level) && external == old(external) && console == old(console)
    {
      isOpen := false;
      fs' := fs;
      if NeedsRotation(File(), fs, today) {
        var previous := GetPreviousPath(fs);
        if previous.Failure? {
          return Failure(previous.error), fs;
        }
        var moved := Rename(fs, path, previous.value);
        if moved.Failure? {
          return Failure(FilesystemError(moved.error)), fs;
        }
        fs' := moved.value;
      }
      r, fs' := OpenLogfile(p, if dailyFile then Some(today) else None, fs');
    }

    /** The file sink of log_, up to the exception ignore_exceptions swallows. */
    method WriteLogfile(line: string, today: Day, fs: Fs) returns (r: Result<(), Error>, fs': Fs)
      modifies this
      ensures FileSinkSpec(old(File()), line, today, fs) == FileStep(r, File(), fs')
      ensures level == old(level) && external == old(external) && console == old(console)
    {
      fs' := fs;
      if NeedsRotation(File(), fs, today) {
        isOpen := false;
        var previous := GetPreviousPath(fs);
        if previous.Failure? {
          return Failure(previous.error), fs;
        }
        var moved := Rename(fs, path, previous.value);
        if moved.Failure? {
          return Failure(FilesystemError(moved.error)), fs;
        }
        r, fs' := OpenLogfile(path, daily, moved.value);
        if r.Failure? {
          return;
        }
      }
      daily := Some(today);
      if isOpen {
        fs' := Append(fs', path, line + "\n");
      }
      r := Success(());
    }

    /** log_(level, pos, message). */
    method LogRecord(lv: Level, pos: Option<Format.Position>, message: string, env: Env, w: World)
      returns (r: Result<(), Error>, w': World)
      modifies this
      ensures LogSpec(old(State()), lv, pos, message, env, w) == LogStep(r, File(), w')
      ensures level == old(level) && external == old(external) && console == old(console)
    {
      if lv == Silent || lv == All {
        return Failure(InvalidArgument), w;
      }
      if Ord(level) < Ord(lv) {
        return Success(()), w;
      }
      r := Success(());
      w' := Emit(lv, pos, message, env, w);
    }

    /** The part of log_ after the level checks: the line goes to every configured sink. */
    method Emit(lv: Level, pos: Option<Format.Position>, message: string, env: Env, w: World) returns (w': World)
      requires lv != Silent && lv != All && Passes(level, lv)
      modifies this
      ensures LogSpec(old(State()), lv, pos, message, env, w) == LogStep(Success(()), File(), w')
      ensures State() == old(State()).(file := File())
    {
      var line := Format.FormatLine(env.timestamp, lv, env.threadId, pos, env.extract, message);
      var out := w.console;
      if console && !env.consoleFails {
        out := out + [ConsoleText(lv, line)];
      }
      var fs := w.fs;
      if path != "" {
        var swallowed;
        swallowed, fs := WriteLogfile(line, env.today, fs);
      }
      var records := w.syslog;
      if external != "" && !env.externalFails {
        records := records + [SyslogRecord(external, SyslogSeverity(lv), line)];
      }
      return World(fs, out, records);
    }

    /** log(level, message, pos). */
    method Log(lv: Level, message: string, pos: Format.Position, env: Env, w: World)
      returns (r: Result<(), Error>, w': World)
      modifies this
      ensures LogSpec(old(State()), lv, Some(pos), message, env, w) == LogStep(r, File(), w')
      ensures level == old(level) && external == old(external) && console == old(console)
    {
      r, w' := LogRecord(lv, Some(pos), message, env, w);
    }

    /** oops: a record at Fatal. */
    method Oops(message: string, pos: Format.Position, env: Env, w: World)
      returns (r: Result<(), Error>, w': World)
      modifies this
      ensures LogSpec(old(State()), Fatal, Some(pos), message, env, w) == LogStep(r, File(), w')
      ensures level == old(level) && external == old(external) && console == old(console)
    {
      r, w' := LogRecord(Fatal, Some(pos), message, env, w);
    }

    /** err: a record at Error. */
    method Err(message: string, pos: Format.Position, env: Env, w: World)
      returns (r: Result<(), Error>, w': World)
      modifies this
      ensures LogSpec(old(State()), Error, Some(pos), message, env, w) == LogStep(r, File(), w')
      ensures level == old(level) && external == old(external) && console == old(console)
    {
      r, w' := LogRecord(Error, Some(pos), message, env, w);
    }

    /** warn: a record at Warn. */
    method Warn(message: string, pos: Format.Position, env: Env, w: World)
      returns (r: Result<(), Error>, w': World)
      modifies this
      ensures LogSpec(old(State()), Levels.Warn, Some(pos), message, env, w) == LogStep(r, File(), w')
      ensures level == old(level) && external == old(external) && console == old(console)
    {
      r, w' := LogRecord(Levels.Warn, Some(pos), message, env, w);
    }

    /** notice: a record at Notice. */
    method Notice(message: string, pos: Format.Position, env: Env, w: World)
      returns (r: Result<(), Error>, w': World)
      modifies this
      ensures LogSpec(old(State()), Levels.Notice, Some(pos), message, env, w) == LogStep(r, File(), w')
      ensures level == old(level) && external == old(external) && console == old(console)
    {
      r, w' := LogRecord(Levels.Notice, Some(pos), message, env, w);
    }

    /** info: a record at Info. */
    method Info(message: string, pos: Format.Position, env: Env, w: World)
      returns (r: Result<(), Error>, w': World)
      modifies this
      ensures LogSpec(old(State()), Levels.Info, Some(pos), message, env, w) == LogStep(r, File(), w')
      ensures level == old(level) && external == old(external) && console == old(console)
    {
      r, w' := LogRecord(Levels.Info, Some(pos), message, env, w);
    }

    /** debug: a record at Debug. */
    method Debug(message: string, pos: Format.Position, env: Env, w: World)
      returns (r: Result<(), Error>, w': World)
      modifies this
      ensures LogSpec(old(State()), Levels.Debug, Some(pos), message, env, w) == LogStep(r, File(), w')
      ensures level == old(level) && external == old(external) && console == old(console)
    {
      r, w' := LogRecord(Levels.Debug, Some(pos), message, env, w);
    }

    /** trace: a record at Trace. */
    method Trace(message: string, pos: Format.Position, env: Env, w: World)
      returns (r: Result<(), Error>, w': World)
      modifies this
      ensures LogSpec(old(State()), Levels.Trace, Some(pos), message, env, w) == LogStep(r, File(), w')
      ensures level == old(level) && external == old(external) && console == old(console)
    {
      r, w' := LogRecord(Levels.Trace, Some(pos), message, env, w);
    }

    /** verbose: a record at Verbose. */
    method Verbose(message: string, pos: Format.Position, env: Env, w: World)
      returns (r: Result<(), Error>, w': World)
      modifies this
      ensures LogSpec(old(State()), Levels.Verbose, Some(pos), message, env, w) == LogStep(r, File(), w')
      ensures level == old(level) && external == old(external) && console == old(console)
    {
      r, w' := LogRecord(Levels.Verbose, Some(pos), message, env, w);
    }
  }
}
