/**
 * The logging level model of xxx::log: the ordered level scale, the validity
 * check on raw ordinals, the threshold filter of logger_t::log_ and the three
 * per-level tables the logger uses (line tag, console colour, syslog severity).
 */
module Levels {
  import opened Wrappers

  /** level_t, in declaration order: Silent is 0 and All is 9. */
  datatype Level = Silent | Fatal | Error | Warn | Notice | Info | Debug | Trace | Verbose | All

  /** static_cast<int>(level). */
  function Ord(l: Level): (n: nat)
    ensures n <= 9
  {
    match l
    case Silent => 0
    case Fatal => 1
    case Error => 2
    case Warn => 3
    case Notice => 4
    case Info => 5
    case Debug => 6
    case Trace => 7
    case Verbose => 8
    case All => 9
  }

  /** The level whose ordinal is n. */
  function FromOrd(n: nat): (l: Level)
    requires n <= 9
    ensures Ord(l) == n
  {
    [Silent, Fatal, Error, Warn, Notice, Info, Debug, Trace, Verbose, All][n]
  }

  lemma OrdInjective(a: Level, b: Level)
    requires Ord(a) == Ord(b)
    ensures a == b
  {
  }

  /** is_valid_level: the raw value is the ordinal of some level. */
  function IsValidLevel(n: int): (b: bool)
    ensures b <==> exists l: Level :: Ord(l) == n
  {
    if Ord(Silent) <= n <= Ord(All) then
      assert Ord(FromOrd(n)) == n;
      true
    else
      false
  }

  /** A level an actual record may carry: Silent and All are thresholds only. */
  predicate IsRecordLevel(l: Level) {
    l != Silent && l != All
  }

  /** The filter of log_: a record is kept unless its ordinal exceeds the threshold's. */
  predicate Passes(threshold: Level, l: Level) {
    !(Ord(threshold) < Ord(l))
  }

  /** A Silent threshold keeps no record, an All or Verbose threshold keeps every record. */
  lemma ThresholdExtremes(l: Level)
    requires IsRecordLevel(l)
    ensures !Passes(Silent, l)
    ensures Passes(All, l) && Passes(Verbose, l)
  {
  }

  /** Raising the threshold never drops a record that passed before. */
  lemma PassesMonotone(t: Level, t': Level, l: Level)
    requires Ord(t) <= Ord(t') && Passes(t, l)
    ensures Passes(t', l)
  {
  }

  /** Fatal keeps only Fatal records (only oops produces output). */
  lemma FatalThresholdKeepsOnlyFatal(l: Level)
    requires IsRecordLevel(l)
    ensures Passes(Fatal, l) <==> l == Fatal
  {
  }

  /** The Lv table of log_: "[S]" … "[A]" indexed by ordinal. */
  function Tag(l: Level): (t: string)
    ensures |t| == 3 && t[0] == '[' && t[2] == ']'
  {
    ["[S]", "[F]", "[E]", "[W]", "[N]", "[I]", "[D]", "[T]", "[V]", "[A]"][Ord(l)]
  }

  /** The level a three-character tag stands for, when it is one. */
  function LevelOfTag(t: string): (r: Option<Level>)
    ensures r.Some? ==> Tag(r.value) == t
  {
    if |t| == 3 && t[0] == '[' && t[2] == ']' then
      match t[1]
      case 'S' => Some(Silent)
      case 'F' => Some(Fatal)
      case 'E' => Some(Error)
      case 'W' => Some(Warn)
      case 'N' => Some(Notice)
      case 'I' => Some(Info)
      case 'D' => Some(Debug)
      case 'T' => Some(Trace)
      case 'V' => Some(Verbose)
      case 'A' => Some(All)
      case _ => None
    else None
  }

  /** The tag of a line identifies its level: distinct levels have distinct tags. */
  lemma TagRoundTrip(l: Level)
    ensures LevelOfTag(Tag(l)) == Some(l)
  {
  }

  /** Colour prefix the console sink writes before the line. */
  function ColourPrefix(l: Level): (s: string)
    ensures s == ColourReset <==> !IsRecordLevel(l)
    ensures |s| >= 4 && s[..2] == "\U{1b}[" && s[|s| - 1] == 'm'
  {
    match l
    case Fatal => "\U{1b}[37m\U{1b}[41m"
    case Error => "\U{1b}[31m"
    case Warn => "\U{1b}[33m"
    case Notice => "\U{1b}[32m"
    case Info => "\U{1b}[37m"
    case Debug => "\U{1b}[35m"
    case Trace => "\U{1b}[34m"
    case Verbose => "\U{1b}[36m"
    case _ => ColourReset
  }

  /** Each record level has a colour of its own: the eight prefixes are pairwise distinct. */
  lemma ColourPrefixesDistinct(a: Level, b: Level)
    requires IsRecordLevel(a) && IsRecordLevel(b) && a != b
    ensures ColourPrefix(a) != ColourPrefix(b)
  {
  }

  /** The escape that ends every console line (and the default prefix). */
  const ColourReset: string := "\U{1b}[0m"

  /** syslog priorities from <syslog.h>. */
  const LOG_CRIT: nat := 2
  const LOG_ERR: nat := 3
  const LOG_WARNING: nat := 4
  const LOG_NOTICE: nat := 5
  const LOG_INFO: nat := 6
  const LOG_DEBUG: nat := 7

  /** Severity the external (syslog) sink maps each level to. */
  function SyslogSeverity(l: Level): (p: nat)
    ensures LOG_CRIT <= p <= LOG_DEBUG
    ensures 1 <= Ord(l) <= 5 ==> p == Ord(l) + 1
    ensures 6 <= Ord(l) <= 8 ==> p == LOG_DEBUG
    ensures Ord(l) == 0 || Ord(l) == 9 ==> p == LOG_CRIT
  {
    match l
    case Fatal => LOG_CRIT
    case Error => LOG_ERR
    case Warn => LOG_WARNING
    case Notice => LOG_NOTICE
    case Info => LOG_INFO
    case Debug => LOG_DEBUG
    case Trace => LOG_DEBUG
    case Verbose => LOG_DEBUG
    case _ => LOG_CRIT
  }

  /** Fatal through Info each have a severity of their own; only Debug, Trace and Verbose share one. */
  lemma SyslogSeverityDistinct(a: Level, b: Level)
    requires IsRecordLevel(a) && IsRecordLevel(b) && Ord(a) <= Ord(Info)
    requires SyslogSeverity(a) == SyslogSeverity(b)
    ensures a == b
  {
  }

  /** The severity mapping keeps the order of record levels (less severe never maps higher). */
  lemma SyslogSeverityMonotone(a: Level, b: Level)
    requires IsRecordLevel(a) && IsRecordLevel(b) && Ord(a) <= Ord(b)
    ensures SyslogSeverity(a) <= SyslogSeverity(b)
  {
  }
}
