/**
 * The process-wide table of loggers by tag (loggers_s). The default logger,
 * tagged "", is created the first time any of the three functions runs.
 */
module LoggerRegistry {
  import opened Wrappers
  import opened Levels
  import opened FileSystem
  import opened Logging

  class Registry {
    var loggers: map<string, Logger>   // *loggers_s
    var initialised: bool              // logger_once_s has run

    /** Before initialisation there is no table; once initialised, the default logger is present. */
    predicate Valid()
      reads this
    {
      (!initialised ==> loggers == map[]) && (initialised ==> "" in loggers)
    }

    /** Before the first use: no table yet. */
    constructor ()
      ensures loggers == map[] && !initialised
      ensures Valid()
    {
      loggers := map[];
      initialised := false;
    }

    /** The std::call_once body: create the table and the default logger if missing. */
    method Initialise()
      requires Valid()
      modifies this
      ensures initialised && "" in loggers
      ensures Valid()
      ensures old(initialised) ==> loggers == old(loggers)
      ensures !old(initialised) ==>
        && loggers.Keys == {""}
        && fresh(loggers[""])
        && loggers[""].State() == LoggerState(Levels.Info, "", true, FileState("", None, false))
    {
      if !initialised {
        initialised := true;
        if "" !in loggers {
          var l := new Logger();
          loggers := loggers["" := l];
        }
      }
    }

    /**
     * add_logger(tag, level, path, logger, console): an empty or existing tag
     * is refused with invalid_argument; a logger whose construction throws is
     * not inserted; otherwise the new single-file logger is added under tag.
     */
    method AddLogger(tag: string, level: Level, path: string, external: string, console: bool, today: Day, fs: Fs)
      returns (r: Result<(), Error>, fs': Fs)
      requires Valid()
      modifies this
      ensures Valid()
      ensures tag == "" ==>
        r == Failure(InvalidArgument) && fs' == fs && loggers == old(loggers) && initialised == old(initialised)
      ensures tag != "" ==> initialised && (old(initialised) ==> "" in old(loggers) && loggers[""] == old(loggers)[""])
      ensures tag != "" ==> forall t :: t != "" && t != tag ==>
        (t in loggers <==> t in old(loggers)) && (t in loggers ==> loggers[t] == old(loggers)[t])
      ensures tag != "" && tag in old(loggers) ==>
        r == Failure(InvalidArgument) && fs' == fs && tag in loggers && loggers[tag] == old(loggers)[tag]
      ensures tag != "" && tag !in old(loggers) ==>
        var step := SetPathSpec(FileState("", None, false), path, false, today, fs);
        && fs' == step.fs
        && (r.Success? <==> step.result.Success?)
        && (r.Failure? ==> r.error == step.result.error && tag !in loggers)
        && (r.Success? ==>
              && tag in loggers && fresh(loggers[tag])
              && loggers[tag].State() == LoggerState(level, external, console, step.file))
    {
      if tag == "" {
        return Failure(InvalidArgument), fs;
      }
      Initialise();
      if tag in loggers {
        return Failure(InvalidArgument), fs;
      }
      var created;
      created, fs' := Logger.Create(level, path, external, console, false, today, fs);
      if created.Failure? {
        return Failure(created.error), fs';
      }
      loggers := loggers[tag := created.value];
      r := Success(());
    }

    /**
     * remove_logger(tag): an empty or absent tag is refused with
     * invalid_argument, so the default logger can never be removed.
     */
    method RemoveLogger(tag: string) returns (r: Result<(), Error>)
      requires Valid()
      modifies this
      ensures Valid()
      ensures tag == "" ==> r == Failure(InvalidArgument) && loggers == old(loggers) && initialised == old(initialised)
      ensures tag != "" ==> initialised && "" in loggers
      ensures tag != "" ==> forall t :: t != "" && t != tag ==>
        (t in loggers <==> t in old(loggers)) && (t in loggers ==> loggers[t] == old(loggers)[t])
      ensures tag != "" ==> tag !in loggers
      ensures tag != "" ==> (r.Success? <==> tag in old(loggers))
      ensures r.Failure? ==> r.error == InvalidArgument
      ensures tag != "" && old(initialised) ==> loggers == old(loggers) - {tag}
      ensures tag != "" && !old(initialised) ==>
        && r.Failure? && loggers.Keys == {""} && fresh(loggers[""])
        && loggers[""].State() == LoggerState(Levels.Info, "", true, FileState("", None, false))
    {
      if tag == "" {
        return Failure(InvalidArgument);
      }
      Initialise();
      if tag !in loggers {
        return Failure(InvalidArgument);
      }
      loggers := loggers - {tag};
      r := Success(());
    }

    /** logger(tag): the logger under tag, or invalid_argument; "" always resolves. */
    method Lookup(tag: string) returns (r: Result<Logger, Error>)
      requires Valid()
      modifies this
      ensures Valid() && initialised
      ensures old(initialised) || "" in old(loggers) ==> loggers == old(loggers)
      ensures forall t :: t != "" ==> (t in loggers <==> t in old(loggers))
      ensures r.Success? <==> tag in loggers
      ensures r.Success? ==> r.value == loggers[tag]
      ensures r.Failure? ==> r.error == InvalidArgument
      ensures tag == "" ==> r.Success?
      ensures !old(initialised) ==>
        && loggers.Keys == {""} && fresh(loggers[""])
        && loggers[""].State() == LoggerState(Levels.Info, "", true, FileState("", None, false))
    {
      Initialise();
      if tag !in loggers {
        return Failure(InvalidArgument);
      }
      r := Success(loggers[tag]);
    }
  }
}
