/**
 * tracer_t: logs ">>>" + message when a scope is entered and "<<<" + the
 * enclosed result when it is left, both at the tracer's level and position.
 */
module Tracing {
  import opened Wrappers
  import opened Levels
  import Render
  import Format
  import opened Logging

  class Tracer {
    const logger: Logger          // logger_
    const pos: Format.Position    // pos_
    var result: string            // result_
    const level: Level            // level_

    /** A tracer only exists once its entry record was accepted, so its level is a record level. */
    predicate Valid()
      reads this
    {
      IsRecordLevel(level)
    }

    constructor Entered(logger: Logger, level: Level, pos: Format.Position)
      requires IsRecordLevel(level)
      ensures this.logger == logger && this.level == level && this.pos == pos && result == ""
      ensures Valid()
    {
      this.logger := logger;
      this.level := level;
      this.pos := pos;
      result := "";
    }

    /**
     * tracer_t(logger, message, level, pos): the entry record ">>>" + message.
     * When log refuses the level the constructor throws and there is no tracer.
     */
    static method Enter(logger: Logger, message: string, level: Level, pos: Format.Position, env: Env, w: World)
      returns (r: Result<Tracer, Error>, w': World)
      modifies logger
      ensures var step := LogSpec(old(logger.State()), level, Some(pos), ">>>" + message, env, w);
        && step.file == logger.File() && step.world == w'
        && (r.Success? <==> step.result.Success?)
        && (r.Failure? ==> r.error == step.result.error)
        && (r.Success? ==>
              && fresh(r.value) && r.value.Valid()
              && r.value.logger == logger && r.value.level == level && r.value.pos == pos
              && r.value.result == "")
      ensures logger.level == old(logger.level) && logger.external == old(logger.external)
      ensures logger.console == old(logger.console)
    {
      var logged;
      logged, w' := logger.Log(level, ">>>" + message, pos, env, w);
      LogRejectsSentinels(old(logger.State()), level, Some(pos), ">>>" + message, env, w);
      if logged.Failure? {
        r := Failure(logged.error);
      } else {
        var t := new Tracer.Entered(logger, level, pos);
        r := Success(t);
      }
    }

    /** The default arguments: an empty message at Trace. */
    static method EnterTrace(logger: Logger, pos: Format.Position, env: Env, w: World)
      returns (r: Result<Tracer, Error>, w': World)
      modifies logger
      ensures var step := LogSpec(old(logger.State()), Levels.Trace, Some(pos), ">>>", env, w);
        && step.file == logger.File() && step.world == w'
        && r.Success? && fresh(r.value) && r.value.Valid()
        && r.value.logger == logger && r.value.level == Levels.Trace && r.value.pos == pos
        && r.value.result == ""
    {
      assert ">>>" + "" == ">>>";
      r, w' := Enter(logger, "", Levels.Trace, pos, env, w);
    }

    /** set_result(v): the exit record will carry enclose(v). */
    method SetResult(v: Render.Value)
      modifies this
      ensures result == Render.Enclose([v])
    {
      result := Render.Enclose([v]);
    }

    /** ~tracer_t(): the exit record "<<<" + result at the same level and position. */
    method Leave(env: Env, w: World) returns (w': World)
      requires Valid()
      modifies logger
      ensures LogSpec(old(logger.State()), level, Some(pos), "<<<" + result, env, w) == LogStep(Success(()), logger.File(), w')
      ensures logger.level == old(logger.level) && logger.external == old(logger.external)
      ensures logger.console == old(logger.console)
    {
      var logged;
      logged, w' := logger.Log(level, "<<<" + result, pos, env, w);
      LogRejectsSentinels(old(logger.State()), level, Some(pos), "<<<" + result, env, w);
    }
  }

  /** The exit message: "<<<" alone without set_result, "<<<(3)" after set_result(3). */
  lemma ExitMessages()
    ensures "<<<" + "" == "<<<"
    ensures "<<<" + Render.Enclose([Render.Int(3)]) == "<<<(3)"
  {
    Render.EncloseSingle(Render.Int(3));
    assert Render.Render(Render.Int(3)) == "3";
  }

  /**
   * A tracer's two records reach the console exactly when a record at its
   * level does: both or neither, with the same colour.
   */
  lemma EntryAndExitAgree(s: LoggerState, level: Level, pos: Format.Position, message: string, result: string, env: Env, w: World)
    requires IsRecordLevel(level)
    ensures var entry := LogSpec(s, level, Some(pos), ">>>" + message, env, w);
      var exit := LogSpec(s, level, Some(pos), "<<<" + result, env, w);
      && entry.result.Success? && exit.result.Success?
      && (|entry.world.console| > |w.console| <==> |exit.world.console| > |w.console|)
      && (|entry.world.console| > |w.console| <==> Passes(s.level, level) && s.console && !env.consoleFails)
  {
    SinksFire(s, level, Some(pos), ">>>" + message, env, w);
    SinksFire(s, level, Some(pos), "<<<" + result, env, w);
  }
}
