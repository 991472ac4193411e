/**
 * The layout of one log line as logger_t::log_ builds it:
 * timestamp, level tag, thread id, optional call-site segment, message.
 */
module Format {
  import opened Wrappers
  import opened Text
  import opened Levels
  import FileSystem

  /** std::source_location as the caller captured it. */
  datatype Position = Position(file: string, line: nat, signature: string)

  /**
   * The function name written for a call site: capture group 1 of the
   * function-name regular expression when it matches the signature, the raw
   * signature otherwise. `extract` stands for std::regex_match with that
   * expression (None: no match).
   */
  function FunctionName(signature: string, extract: string -> Option<string>): (name: string)
    ensures extract(signature).None? ==> name == signature
    ensures extract(signature).Some? ==> name == extract(signature).value
  {
    match extract(signature)
    case Some(group) => group
    case None => signature
  }

  /** The thread id field: upper-case hex, '_'-filled on the left to width 5. */
  function ThreadField(threadId: nat): (f: string)
  {
    PadLeft(Hex(threadId), 5, '_')
  }

  /** "{" + file name + ":" + line '_'-filled to width 5 + "} " + function name + " ". */
  function PositionField(pos: Position, extract: string -> Option<string>): (f: string)
  {
    "{" + FileSystem.Filename(pos.file) + ":" + PadLeft(NatDigits(pos.line, 10), 5, '_') + "} "
      + FunctionName(pos.signature, extract) + " "
  }

  /** The line log_ sends to every sink (before console colouring). */
  function FormatLine(timestamp: string, level: Level, threadId: nat, pos: Option<Position>,
                      extract: string -> Option<string>, message: string): (line: string)
    ensures |line| >= |timestamp| + 3 + 5
    ensures line[..|timestamp|] == timestamp
    ensures LevelOfTag(line[|timestamp|..|timestamp| + 3]) == Some(level)
  {
    FourParts(timestamp, Tag(level), ThreadField(threadId), Tail(pos, extract, message));
    TagRoundTrip(level);
    ThreadFieldDecodes(threadId);
    timestamp + Tag(level) + ThreadField(threadId) + Tail(pos, extract, message)
  }

  /** Cutting a four-part concatenation at the part boundaries gives the parts back. */
  lemma FourParts(a: string, b: string, c: string, d: string)
    ensures var s := a + b + c + d;
      && s[..|a|] == a
      && s[|a|..|a| + |b|] == b
      && s[|a| + |b|..|a| + |b| + |c|] == c
      && s[|a| + |b| + |c|..] == d
  {
    var s := a + b + c + d;
    assert s == a + (b + (c + d));
    assert s[|a|..] == b + (c + d);
    assert (b + (c + d))[|b|..] == c + d;
  }

  /** The thread field is at least five characters wide and reads back as the thread id. */
  lemma ThreadFieldDecodes(threadId: nat)
    ensures |ThreadField(threadId)| >= 5
    ensures var f := DropFill(ThreadField(threadId), '_');
      AllDigits(f, 16) && DigitsValue(f, 16) == threadId
  {
    PadLeftShape(Hex(threadId), 5, '_');
    PaddedNumberRoundTrip(threadId, 16, 5, '_');
  }

  /** The part of a line after the thread field. */
  function Tail(pos: Option<Position>, extract: string -> Option<string>, message: string): string
  {
    (match pos case Some(p) => PositionField(p, extract) case None => "") + message
  }

  /**
   * A line can be decoded field by field: the timestamp comes first, the next
   * three characters give back the level, the thread field (at least five
   * characters) gives back the thread id once its fill is dropped, and the
   * line ends with the call-site segment and the message.
   */
  lemma FormatLineFields(timestamp: string, level: Level, threadId: nat, pos: Option<Position>,
                         extract: string -> Option<string>, message: string)
    ensures var line := FormatLine(timestamp, level, threadId, pos, extract, message);
      var t := |timestamp|;
      var w := |ThreadField(threadId)|;
      && w >= 5
      && |line| >= t + 3 + w
      && line[..t] == timestamp
      && LevelOfTag(line[t..t + 3]) == Some(level)
      && AllDigits(DropFill(line[t + 3..t + 3 + w], '_'), 16)
      && DigitsValue(DropFill(line[t + 3..t + 3 + w], '_'), 16) == threadId
      && line[t + 3 + w..] == Tail(pos, extract, message)
  {
    var field := ThreadField(threadId);
    var tail := Tail(pos, extract, message);
    FourParts(timestamp, Tag(level), field, tail);
    TagRoundTrip(level);
    ThreadFieldDecodes(threadId);
  }

  /** The line number field reads back as the line number. */
  lemma LineNumberField(line: nat)
    ensures |PadLeft(NatDigits(line, 10), 5, '_')| >= 5
    ensures var f := DropFill(PadLeft(NatDigits(line, 10), 5, '_'), '_');
      AllDigits(f, 10) && DigitsValue(f, 10) == line
  {
    PadLeftShape(NatDigits(line, 10), 5, '_');
    PaddedNumberRoundTrip(line, 10, 5, '_');
  }
}
