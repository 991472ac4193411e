# xutil core, modelled in Dafny

This project models the core of the C++ utility library xutil (namespace
`xxx`) and proves properties of that model. The core has five parts.

**Logging** (`xxx::log`):
- the ten `level_t` levels and the threshold filter;
- the rendering helpers `enclose` and `concatenate` (`impl::dump_` over strings, integers and containers);
- the layout of a log line;
- `logger_t` itself: setters, per-level wrappers, `log_` with its three sinks (console, daily-rotated log file, syslog), `open_logfile_`, `set_path` and `get_previous_path_`;
- the RAII `tracer_t`;
- the global registry `add_logger` / `remove_logger` / `logger`.

**Configuration** (`xxx::config::configurations_t`): key validation, the options and file constructors, the line parser, and the typed getters `get` / `get_as`.

**Files** (`xxx::file`): `read_whole` and `read_lines`.

**Event queue** (`xxx::queue`): a FIFO with a one-way termination flag.

**Redux** (`xxx::redux`): `action` and `store` (reducer, then listeners in registration order).

Files:

| file | module | models |
|---|---|---|
| wrappers.dfy | Wrappers | `Option` and `Result` (C++ exceptions become `Failure` values) |
| text.dfy | Text | decimal/hex numerals, `setw`/`setfill` padding, joining |
| levels.dfy | Levels | `level_t`, `is_valid_level`, the filter, tags, ANSI colours, syslog severities |
| render.dfy | Render | `impl::dump_`, `impl::enclose_`, `enclose`, `concatenate` |
| filesystem.dfy | FileSystem | a value model of the file system: contents, files that cannot be opened, files that cannot be renamed; `path::filename` and `replace_filename` |
| format.dfy | Format | the text of one log line |
| logging.dfy | Logging | the file and logger state as values with specification functions, and `class Logger` proved against them |
| tracer.dfy | Tracing | `class Tracer` (`tracer_t`) |
| registry.dfy | LoggerRegistry | `class Registry` (`loggers_s` and its three functions) |
| files.dfy | Files | `read_whole` and `read_lines`, with their loops |
| config.dfy | Config | `configurations_t` |
| queue.dfy | EventQueue | `class Queue` (`queue<T>`) and its specification on values |
| redux.dfy | Redux | `action` and `class Store` (`store`) |

How the model is built:
- Everything a log call depends on from outside is an input `Env`: the timestamp text, today's (year, day of year), the thread id, the function-name extraction, and whether the console or syslog call throws.
- Everything it affects is a `World` value that the methods take and return: the file system, the console lines, and the syslog records.
- Mutable C++ objects are Dafny classes whose methods are proved equal to specification functions on values (`LogSpec`, `SetPathSpec`, `EnqueueSpec`, …). The lemmas are stated about those functions.

Where the code and its tests disagree, the model follows the code:
- Keys "1" and "-" are valid keys (src/config.cxx:22).
- An empty value reads as `false` (xxx/config.hxx:141).
- A repeated key keeps only the last value (src/config.cxx:74).

## Model

| member | source | states |
|---|---|---|
| Levels.IsValidLevel | xxx/logger.hxx:72-76 | true exactly for the ordinals of the ten levels, Silent (0) to All (9) |
| Levels.FromOrd | xxx/logger.hxx:58-70 | each ordinal 0..9 names a level whose ordinal it is |
| Levels.OrdInjective | xxx/logger.hxx:58-70 | two levels with the same ordinal are the same level |
| Levels.ThresholdExtremes | src/logger.cxx:63-65 | threshold Silent drops every record level; All and Verbose keep every one |
| Levels.PassesMonotone | src/logger.cxx:63-65 | a record kept under a threshold is kept under every higher threshold |
| Levels.FatalThresholdKeepsOnlyFatal | src/logger.cxx:63-65 | under threshold Fatal only Fatal records are kept |
| Levels.Tag | src/logger.cxx:67 | every tag is three characters "[x]" |
| Levels.LevelOfTag | src/logger.cxx:67 | a recognised tag is the tag of the level returned |
| Levels.TagRoundTrip | src/logger.cxx:67 | reading back a level's tag gives the level |
| Levels.SyslogSeverity | src/logger.cxx:157-168 | Fatal, Error, Warn, Notice and Info map to LOG_CRIT, LOG_ERR, LOG_WARNING, LOG_NOTICE and LOG_INFO; Debug, Trace and Verbose to LOG_DEBUG; Silent and All to LOG_CRIT |
| Levels.SyslogSeverityDistinct | src/logger.cxx:157-168 | Fatal to Info each have a severity no other record level shares |
| Levels.SyslogSeverityMonotone | src/logger.cxx:157-168 | a less severe level never maps to a more severe syslog priority |
| Levels.ColourPrefix | src/logger.cxx:97-109 | every prefix is an escape sequence "\x1b[...m"; it is the reset exactly for Silent and All |
| Levels.ColourPrefixesDistinct | src/logger.cxx:99-107 | the eight record levels have pairwise distinct colours |
| Text.NatDigitsRoundTrip | src/logger.cxx:208 | a numeral is non-empty, has no leading zero and reads back as the number |
| Text.PaddedNumberRoundTrip | src/logger.cxx:85 | a padded numeral has at least the width and, with the fill removed, reads back as the number |
| Text.JoinAppend | xxx/logger.hxx:236-246 | joining one more part adds the separator and the part |
| Render.Enclose | xxx/logger.hxx:256-272 | "(" then the dumps of the arguments separated by "," then ")" |
| Render.DumpArgs | xxx/logger.hxx:86-95 | the dumps of the arguments one after another |
| Render.Concatenate | xxx/logger.hxx:278-292 | the dumps of the arguments one after another, with no separator |
| Render.Render | xxx/logger.hxx:86-205 | a vector's dump is enclosed in "[" "]", a map's or set's in "{" "}" |
| Render.ConcatenateAppend | xxx/logger.hxx:278-292 | concatenating two argument lists is concatenating each |
| Render.EncloseAppend | xxx/logger.hxx:236-246 | enclosing one more argument adds "," and its dump before ")" |
| Render.EncloseSingle | xxx/logger.hxx:256-272 | one argument is enclosed as "(" + its dump + ")" |
| Render.EmptyArgumentLists | xxx/logger.hxx:256-292 | enclose() is "()" and concatenate() is "" |
| Render.ArgAndTwo | xxx/logger.hxx:256-292 | enclose("arg", 2) is "(arg,2)" and concatenate("arg", 2) is "arg2" |
| Render.EmptyContainers | xxx/logger.hxx:100-205 | an empty vector dumps as "[]", an empty map or set as "{}" |
| Render.VectorRendering | xxx/logger.hxx:100-116 | a vector dumps between "[" and "]"; when no element's dump holds a ",", splitting the inside at "," gives back the elements' dumps in order |
| Render.SetRendering | xxx/logger.hxx:144-161 | a set dumps between "{" and "}"; when no element's dump holds a ",", splitting the inside at "," gives back the elements' dumps in order |
| Render.OrderedSetRendering | xxx/logger.hxx:144-161 | a std::set of ints dumps its elements in ascending order |
| Render.OrderedMapRendering | xxx/logger.hxx:121-140 | a std::map dumps "key:value" entries in ascending key order |
| Render.OrderedSetItems | xxx/logger.hxx:144-161 | splitting a non-empty set's dump between the braces at each ',' gives the numerals of its elements, ascending |
| Render.OrderedMapEntries | xxx/logger.hxx:121-140 | when no value's dump holds a ',', splitting a non-empty map's dump between the braces gives its "key:value" entries in ascending key order |
| FileSystem.Rename | src/logger.cxx:135 | rename fails iff the source is missing or either name is locked; on success the contents move and every other file is unchanged |
| FileSystem.OpenAppend | src/logger.cxx:228-233 | opening for append fails iff the path is refused; on success a missing file is created empty and existing files are unchanged |
| FileSystem.Append | src/logger.cxx:140-141 | appending extends exactly that file and no other |
| FileSystem.Filename | src/logger.cxx:200 | the directory part followed by the filename is the path, and the filename has no '/' |
| FileSystem.ReplaceFilename | src/logger.cxx:203-208 | the result keeps the directory and has the new filename |
| FileSystem.DirOfAppend | src/logger.cxx:203-208 | a directory followed by a plain name has that directory |
| Format.FunctionName | src/logger.cxx:89 | the captured name when the function-name expression matches, otherwise the raw signature |
| Format.FormatLine | src/logger.cxx:67-93 | the line starts with the timestamp, followed by a tag that reads back as the level, and is at least 8 characters longer than the timestamp |
| Format.ThreadFieldDecodes | src/logger.cxx:85 | the thread field is at least 5 characters and decodes back to the thread id |
| Format.LineNumberField | src/logger.cxx:88 | the line-number field is at least 5 characters and decodes back to the line |
| Format.FormatLineFields | src/logger.cxx:67-93 | a line is the timestamp, then a tag that reads back as the level, then the thread field, then the position and the message |
| Logging.FirstFreeFails | src/logger.cxx:206-211 | the search for a free name fails, with runtime_error, iff all remaining candidates are taken |
| Logging.FirstFreeIsFirst | src/logger.cxx:206-213 | a found name is the first candidate not taken |
| Logging.PreviousPathOutcome | src/logger.cxx:195-214 | logic_error iff no day is recorded; runtime_error iff base, base.0 … base.10 are all taken; otherwise the first free one |
| Logging.CandidateNamesNoSlash | src/logger.cxx:200-208 | every candidate name is a plain file name |
| Logging.ReplaceTwice | src/logger.cxx:203-208 | replacing the filename twice is replacing it once with the second name |
| Logging.RotateSpec | src/logger.cxx:135 | a successful rotation leaves which files are refused or locked unchanged |
| Logging.RotateErrors | src/logger.cxx:135 | with a day recorded, a rotation fails only with runtime_error or a file-system error |
| Logging.LogRejectsSentinels | src/logger.cxx:58 | log_ fails with invalid_argument iff the level is Silent or All, and then changes nothing |
| Logging.FilteredRecordTouchesNothing | src/logger.cxx:63-65 | a record above the logger's level changes no sink and no state |
| Logging.SinksFire | src/logger.cxx:95-178 | the console and syslog each receive exactly the formatted record iff enabled, passing and not failing; the file sink only acts with a path set |
| Logging.ConsoleText | src/logger.cxx:111-115 | the console text is as long as colour, line, reset and newline together |
| Logging.ConsoleTextShape | src/logger.cxx:97-115 | the text starts with the level's colour, ends with the reset and a newline, and the line read back between them is the line; other record levels have other colours |
| Logging.SinkIsolation | src/logger.cxx:95-178 | a failing console or syslog never affects the file sink, and the file system never affects the other sinks |
| Logging.SameDayAppends | src/logger.cxx:123-145 | on the recorded day the line plus '\n' is appended to the open file |
| Logging.DayChangeRotates | src/logger.cxx:127-141 | on a new day the old file moves to the previous-path name with its contents, and a fresh file holds the line |
| Logging.RotationFailureKeepsDay | src/logger.cxx:124-137 | a failed rotation closes the stream, keeps the day and writes nothing, so the next record retries |
| Logging.ReopenFailureStopsFile | src/logger.cxx:234-237 | a failed reopen after rotation clears path and day |
| Logging.SingleFileLoggerAcquiresDay | src/logger.cxx:138 | a logger with no day records today on its first write and then rotates when the day changes |
| Logging.OpenLogfileOutcome | src/logger.cxx:216-239 | logic_error when a stream is open; an empty path clears path and day; a failed open clears both; success records lt and keeps existing files |
| Logging.SetPathOutcome | src/logger.cxx:241-265 | set_path closes, rotates if needed, then opens; the stream is open iff the path is non-empty and the day is set iff daily |
| Logging.OpenAndSetPathKeepValidity | src/logger.cxx:216-265 | open_logfile_ and set_path keep "open implies a path, no path implies no day" |
| Logging.FileSinkKeepsValidity | src/logger.cxx:123-146 | the file sink keeps that invariant |
| Logging.LogKeepsValidity | src/logger.cxx:55-179 | log_ keeps that invariant |
| Logging.Logger.constructor | xxx/logger.hxx:438-439 | a default logger has level Info, no path, no external name, console on, no day |
| Logging.Logger.Configured | src/logger.cxx:50-51 | the fields are initialised from the arguments, with no path and no day |
| Logging.Logger.Create | src/logger.cxx:50-53 | construction is that initialisation followed by set_path, with set_path's outcome |
| Logging.Logger.SetLevel | xxx/logger.hxx:415 | only the level changes |
| Logging.Logger.SetConsole | xxx/logger.hxx:412 | only the console flag changes |
| Logging.Logger.SetLogger | xxx/logger.hxx:405 | only the external logger name changes |
| Logging.Logger.GetPreviousPath | src/logger.cxx:195-214 | the retry loop computes PreviousPath |
| Logging.Logger.OpenLogfile | src/logger.cxx:216-239 | the new file state and file system are those of OpenLogfileSpec |
| Logging.Logger.SetPath | src/logger.cxx:241-265 | the new file state and file system are those of SetPathSpec |
| Logging.Logger.WriteLogfile | src/logger.cxx:123-146 | the new file state and file system are those of FileSinkSpec |
| Logging.Logger.LogRecord | src/logger.cxx:55-179 | the result, file state and world are those of LogSpec; the level, console and external name do not change |
| Logging.Logger.Emit | src/logger.cxx:67-179 | once the level checks pass, the line reaches every configured sink as LogSpec says; only the file state changes |
| Logging.Logger.Log | xxx/logger.hxx:331-335 | log_ with the given level and position |
| Logging.Logger.Oops | xxx/logger.hxx:339-343 | log_ at Fatal |
| Logging.Logger.Err | xxx/logger.hxx:347-351 | log_ at Error |
| Logging.Logger.Warn | xxx/logger.hxx:355-359 | log_ at Warn |
| Logging.Logger.Notice | xxx/logger.hxx:363-367 | log_ at Notice |
| Logging.Logger.Info | xxx/logger.hxx:371-375 | log_ at Info |
| Logging.Logger.Debug | xxx/logger.hxx:379-383 | log_ at Debug |
| Logging.Logger.Trace | xxx/logger.hxx:387-391 | log_ at Trace |
| Logging.Logger.Verbose | xxx/logger.hxx:395-399 | log_ at Verbose |
| Tracing.Tracer.Entered | xxx/logger.hxx:509-513 | the tracer holds the logger, level and position, and an empty result |
| Tracing.Tracer.Enter | xxx/logger.hxx:509-517 | construction logs ">>>" + message at the tracer's level and fails exactly as that log call fails |
| Tracing.Tracer.EnterTrace | xxx/logger.hxx:509 | with the default arguments, ">>>" is logged at Trace and construction succeeds |
| Tracing.Tracer.SetResult | xxx/logger.hxx:533 | the result becomes enclose(v) |
| Tracing.Tracer.Leave | xxx/logger.hxx:518-521 | destruction logs "<<<" + result at the tracer's level and position |
| Tracing.ExitMessages | xxx/logger.hxx:518-533 | with no result the exit message is "<<<", and after set_result(3) it is "<<<(3)" |
| Tracing.EntryAndExitAgree | xxx/logger.hxx:509-521 | entry and exit records both succeed and reach the console under the same conditions |
| LoggerRegistry.Registry.constructor | src/logger.cxx:267-269 | the registry starts empty and not initialised |
| LoggerRegistry.Registry.Initialise | src/logger.cxx:269-281 | the first call creates the table holding only the default logger under ""; a later call changes nothing; the table exists exactly once initialised |
| LoggerRegistry.Registry.AddLogger | src/logger.cxx:272-287 | invalid_argument for "" or an existing tag; a failed construction inserts nothing; otherwise the tag holds the new logger and no other tag changes |
| LoggerRegistry.Registry.RemoveLogger | src/logger.cxx:289-303 | invalid_argument for "" or an absent tag; on an initialised registry the table afterwards is the old one without tag, so "" is never removed; a first call installs only a default-constructed logger under "" and fails |
| LoggerRegistry.Registry.Lookup | src/logger.cxx:305-317 | the logger of a present tag, invalid_argument otherwise; "" is always present, and on a first call it is a fresh default-constructed logger (Info, console on, no path, no day) |
| Files.UpToNul | xxx/files.hxx:41-42 | the longest prefix without NUL, ending at the first NUL if there is one |
| Files.UpToNulUnique | xxx/files.hxx:41-42 | that characterisation fixes the result |
| Files.ReadWhole | xxx/files.hxx:27-43 | the copy loop and the strlen of &buffer[0]: invalid_argument if absent, "" if empty, an I/O failure if unopenable, else the contents up to the first NUL |
| Files.Lines | xxx/files.hxx:57-62 | no lines exactly when the text is empty |
| Files.LinesHaveNoNewline | xxx/files.hxx:57-62 | no line contains '\n' |
| Files.LinesRoundTrip | xxx/files.hxx:57-62 | the lines joined with "\n", plus "\n" iff the contents end with one, give back the contents |
| Files.EmptyAndTerminated | xxx/files.hxx:54-62 | empty contents give no line, and a final newline adds no empty line |
| Files.UnterminatedLastLine | xxx/files.hxx:57-62 | an unterminated last line is kept |
| Files.ReadLines | xxx/files.hxx:53-63 | the getline loop yields Lines of the contents read by read_whole |
| Files.GetLine | xxx/files.hxx:60 | one getline call stops at the next '\n' or at the end, and the line it extracts holds no '\n' |
| Config.KeyExamples | src/config.cxx:20-24 | " foo ", "foo bar", "" and "foo$bar" are invalid; "Aa1.-_", "1" and "-" are valid |
| Config.FromOptions | src/config.cxx:26-52 | the options become the configuration unless some key is invalid, and then invalid_argument |
| Config.ParsedPair | src/config.cxx:62-73 | a parsed key is valid, and the value ends the line with no leading blank and no line terminator |
| Config.ParseLineRoundTrip | src/config.cxx:62-73 | blanks, a key, blanks, "=", blanks and a value parse back as that key and value |
| Config.SkippedLines | src/config.cxx:64-66 | an empty line, a '#' line and a line of blanks and line ends are skipped |
| Config.MalformedLines | src/config.cxx:69-71 | "a", "$=a", "=a" and " #" are syntax errors |
| Config.TrailingBlanksKept | src/config.cxx:72-73 | " e = f " gives key "e" and value "f " |
| Config.BlankValueIsEmpty | src/config.cxx:72-73 | "j=\t" gives key "j" and the empty value |
| Config.LoadFailsOnFirstMalformed | src/config.cxx:63-71 | loading fails iff some line is malformed, with runtime_error of the first such line |
| Config.LoadIsLastValue | src/config.cxx:63-75 | the loaded map holds a key iff some line defines it, with the last such line's value |
| Config.LastValueAbsent | src/config.cxx:74 | no value is found iff no line defines the key |
| Config.LastValueIsLastDefinition | src/config.cxx:74 | the value found is that of the last line defining the key |
| Config.LoadedFile | src/config.cxx:62-75 | for the file's parser: loaded keys are valid, defined by some line, and hold the last line's value |
| Config.LoadLines | src/config.cxx:63-75 | the getline loop computes Load |
| Config.FromFile | src/config.cxx:54-76 | an I/O failure for a missing or unopenable file, otherwise the loaded lines |
| Config.FromFileAndOptions | xxx/config.hxx:101-110 | the keys of both; option values win over file values, file values stand elsewhere |
| Config.Get | xxx/config.hxx:36 | the stored value iff the key is present, out_of_range otherwise |
| Config.GetStringOr | xxx/config.hxx:128-137 | the stored value when get would return one, the alternative when it throws |
| Config.GetBool | xxx/config.hxx:139-143 | succeeds iff the key is present, otherwise out_of_range; false exactly for "", "0", "false" and "nullptr" |
| Config.GetBoolOr | xxx/config.hxx:144-153 | the bool getter's value when it succeeds, the alternative when it throws |
| Config.AlternativeGetters | xxx/config.hxx:128-153 | the string and bool getters with an alternative return it exactly when the plain getters throw out_of_range |
| Config.BoolExamples | xxx/config.hxx:139-143 | "", "0", "false", "nullptr" read as false; "1", "true", "yes", "False", " " read as true |
| Config.ExtractInt | xxx/config.hxx:47 | no value is stored iff the text is all white space; a stored value lies in the int range |
| Config.GetInt | xxx/config.hxx:44-52 | out_of_range iff the key is absent; a present, non-empty value whose extraction reached the end returns the extracted value (or the untouched `t` for white space), and anything else gives bad_cast |
| Config.GetIntOr | xxx/config.hxx:59-78 | the alternative for an absent key, and wherever get_as<int>(key) throws; otherwise its value |
| Config.IntAlternative | xxx/config.hxx:59-78 | get_as<int>(key, alt) is get_as<int>(key) with alt wherever that throws |
| Config.RefusedValues | xxx/config.hxx:44-52 | "1a" and "" give bad_cast |
| Config.SignAloneReadsAsZero | xxx/config.hxx:44-52 | as written, "-" gives 0; the corrected getter gives bad_cast |
| Config.StrictMeansConverted | xxx/config.hxx:38-52 | the corrected getter succeeds iff the value is non-empty and fully and successfully extracted, and returns the extracted value |
| Config.GetIntStrict | xxx/config.hxx:38-52 | out_of_range iff the key is absent, otherwise bad_cast on failure; a success is the value extraction stored, within the int range |
| Config.GetIntStrictOr | xxx/config.hxx:53-65 | the corrected getter's value when it succeeds, the alternative whenever it fails |
| Config.SignAloneIgnoresAlternative | xxx/config.hxx:58-65 | as written, get_as<int>(key, alt) gives 0 for "-"; the corrected one gives alt |
| Config.StrictRoundTrip | xxx/config.hxx:38-52 | every int written in decimal reads back through the corrected getter |
| Config.AsWrittenRoundTrip | xxx/config.hxx:44-78 | every int written in decimal reads back through both getters as written, and through the corrected getter with an alternative |
| Config.ExtractDecimal | xxx/config.hxx:47-49 | extracting an int from its own decimal text gives that int back, reaching the end without failing |
| EventQueue.OperationsKeepConsistency | xxx/queue.hxx:33-68 | every operation keeps "terminated implies empty" |
| EventQueue.FinishedIsFinal | xxx/queue.hxx:35-56 | once terminated, enqueue and dequeue fail with terminated_error and change nothing, and the flag stays set |
| EventQueue.TerminateIdempotent | xxx/queue.hxx:63-68 | terminate sets the flag and empties the queue; doing it twice is doing it once |
| EventQueue.EnqueueAllAppends | xxx/queue.hxx:33-46 | enqueueing into a running queue appends in order |
| EventQueue.DrainTakesFront | xxx/queue.hxx:50-59 | n dequeues return the first n events, front first |
| EventQueue.Fifo | xxx/queue.hxx:33-59 | events come out of a new queue in the order they went in |
| EventQueue.Queue.constructor | xxx/queue.hxx:80-81 | a new queue is empty and not terminated |
| EventQueue.Queue.Enqueue | xxx/queue.hxx:33-46 | result and new state are those of EnqueueSpec |
| EventQueue.Queue.Dequeue | xxx/queue.hxx:50-59 | result and new state are those of DequeueSpec |
| EventQueue.Queue.Terminate | xxx/queue.hxx:63-68 | the new state is that of TerminateSpec |
| EventQueue.Queue.Dispose | xxx/queue.hxx:83 | destruction terminates |
| EventQueue.Queue.Empty | xxx/queue.hxx:71-74 | true iff no event is pending; nothing changes |
| EventQueue.Queue.IsTerminated | xxx/queue.hxx:77 | the finished flag; nothing changes |
| Redux.DefaultAction | xxx/redux.hxx:28 | a default action has id 0 and no option |
| Redux.ActionOf | xxx/redux.hxx:29 | the id given, no option |
| Redux.ActionWith | xxx/redux.hxx:30-31 | the id and option given |
| Redux.CallsInOrder | xxx/redux.hxx:53-56 | each listener is called exactly once, in registration order, with the new state and the action |
| Redux.CallsAppend | xxx/redux.hxx:53-56 | one more listener adds exactly its call at the end |
| Redux.Store.Init | xxx/redux.hxx:62 | the state and reducer given, no listeners, no calls |
| Redux.Store.Create | xxx/redux.hxx:62-63 | invalid_argument iff the initial state converts to false; otherwise a fresh store |
| Redux.Store.Observe | xxx/redux.hxx:43-46 | the functor is applied to the current state; nothing changes |
| Redux.Store.Dispatch | xxx/redux.hxx:48-57 | the state becomes reducer(old state, action), then the listeners' calls are appended in order |
| Redux.Store.AddListener | xxx/redux.hxx:59 | the listener is appended; the state is unchanged |
| Redux.Store.ClearListeners | xxx/redux.hxx:60 | no listener is left; the state is unchanged |

## Left out

- Concurrency: all mutexes, `std::call_once`, the condition-variable wait in `dequeue`, and the store's `shared_mutex`.
- `LoggerRegistry.Registry.AddLogger`: when `add_logger` is the first registry call, it holds `loggers_mutex_s` (src/logger.cxx:275) and the `call_once` body locks it again (src/logger.cxx:278). Locking a `std::mutex` the thread already owns is undefined behaviour and in practice deadlocks. The model instead initialises the registry and inserts the logger, i.e. what the code evidently intends. `EventQueue.Queue.Dequeue` requires "non-empty or terminated" instead of blocking. The registry initialises on first use and does so once.
- Clock and time formatting: `get_local_now_`, `put_time`, the microsecond field and the UTC offset. The timestamp text and today's (year, day of year, month, day of month) are inputs.
- The regular expression that extracts a function name (src/logger.cxx:47) is a partial function given as input; the raw signature is the fallback.
- The thread id is a natural number; `std::this_thread::get_id` is left out.
- Real I/O is a value model: `std::ofstream`, `std::filesystem::rename` / `exists` / `file_size` and `std::clog`. Console and syslog faults are inputs, and a file write never fails once the file is open.
- `openlog`/`syslog` are recorded as (ident, severity, line). `OutputDebugStringA` and the Windows and standard-C++-only branches are left out; the POSIX branch is modelled.
- The ANSI colour table is modelled; the build without escape sequences is not.
- `validate_argument` on a source position with null names (src/logger.cxx:59-61) is left out: a position always has a file name and a function name.
- `tracer_t::trace` is left out because it calls a `log` overload that does not exist. The `char8_t` `dump_` overloads are left out because their template parameter can never be deduced. The `xxx_no_logging` stubs are left out.
- `dump_` of user types goes through `operator<<`; only strings, integers and the standard containers are modelled. Unordered containers use whatever order their hash table gives, which is a parameter.
- `Config.FromFileAndOptions`: the path-and-options constructors are declared in xxx/config.hxx:105-110, but their definitions are not in src/config.cxx. The member follows the header's promise that option values win, and it does not validate the option keys.
- `get_as<T>` is modelled for `int`, `bool` and `std::string`; other `T` and the `char` / `wchar_t` string types are left out. Parsing an int covers decimal text under the "C" locale.
- The text/binary mode of `read_whole` is left out: contents are characters, read unchanged.
- `action::option<T>()`'s `std::any_cast` is left out. The option is an `Option` of one type, and `DefaultAction` models an integral id type.
- Listeners of the store are opaque values. Each call is recorded with the state and action it receives; what a listener does is not modelled.
- `FileSystem.Append` (used by `Logging.FileSinkSpec`): the open `ofs_` is identified by its path, not by the file it opened. If the file at `path_` is renamed or removed while the stream is open, the real stream keeps writing to the moved file. This can happen when another logger on the same path rotates it, or when an outside process does. The model then appends to whatever file is now at the path, or drops the line when there is none.
- `Redux.Store.Dispatch`: the reducer is a total function. A reducer that throws is not modelled. In the source the exception propagates, the state stays unchanged and no listener is called.
- These files have no core to model: xxx/db.hxx, src/sig.cxx, xxx/sig.hxx, src/xxx.cxx, xxx/exceptions.hxx and samples/main.cpp. Exceptions are represented by error values.

## Findings

| source | as written | input that shows it | evidently intended | confidence | as-written member | corrected member |
|---|---|---|---|---|---|---|
| xxx/config.hxx:44-52 | `get_as<T>(key)` checks only `!empty() && eof()` after `iss >> t`, never `fail()` | the value "-": extraction reads the sign, finds no digit, sets fail and eof, and 0 is returned. "99999999999" returns INT_MAX the same way, and "  " returns the uninitialised `t` | throw `bad_cast` whenever the value cannot be converted, as documented at xxx/config.hxx:43 | not executed | Config.SignAloneReadsAsZero (on Config.GetInt) | Config.GetIntStrict, with Config.StrictMeansConverted and Config.StrictRoundTrip |
| xxx/config.hxx:58-78 | `get_as<T>(key, alternative)` returns `t` when `!empty() && eof()`, again without checking `fail()` | the value "-": 0 is returned instead of the alternative; "99999999999" returns INT_MAX the same way | return the alternative whenever the value cannot be converted, as documented at xxx/config.hxx:58 | not executed | Config.SignAloneIgnoresAlternative (on Config.GetIntOr) | Config.GetIntStrictOr, with Config.SignAloneIgnoresAlternative |
