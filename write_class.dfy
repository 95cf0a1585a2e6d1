/**
 * The log class of the "writing a class" lesson: a level filter that
 * decides which messages are printed. Printing is modelled as the returned
 * decision `emitted`.
 */
module WriteClass {

  /** Log levels, from the most severe (value 0) to the most verbose. */
  datatype LogLevel = LevelError | LevelWarning | LevelInfo

  /** The underlying value of the enumerator. */
  function Rank(level: LogLevel): nat
  {
    match level
    case LevelError => 0
    case LevelWarning => 1
    case LevelInfo => 2
  }

  /** A message of severity `severity` is printed when the log level is at least that severity. */
  predicate Emits(level: LogLevel, severity: LogLevel)
  {
    Rank(level) >= Rank(severity)
  }

  class Log {
    var logLevel: LogLevel

    constructor ()
      ensures logLevel == LevelInfo
    {
      logLevel := LevelInfo;
    }

    method SetLevel(level: LogLevel)
      modifies this
      ensures logLevel == level
    {
      logLevel := level;
    }

    /** An error is printed at every level. */
    method Error(message: string) returns (emitted: bool)
      ensures emitted == Emits(logLevel, LevelError)
      ensures emitted
    {
      emitted := Rank(logLevel) >= Rank(LevelError);
    }

    /** A warning is printed unless the level is LevelError. */
    method Warn(message: string) returns (emitted: bool)
      ensures emitted == Emits(logLevel, LevelWarning)
      ensures emitted <==> logLevel != LevelError
    {
      emitted := Rank(logLevel) >= Rank(LevelWarning);
    }

    /** An info message is printed only at LevelInfo. */
    method Info(message: string) returns (emitted: bool)
      ensures emitted == Emits(logLevel, LevelInfo)
      ensures emitted <==> logLevel == LevelInfo
    {
      emitted := Rank(logLevel) >= Rank(LevelInfo);
    }
  }

  /** The enumerators are strictly ordered, from LevelError = 0 upward, and distinct levels have distinct values. */
  lemma LevelOrder(a: LogLevel, b: LogLevel)
    ensures Rank(LevelError) == 0 && Rank(LevelError) < Rank(LevelWarning) < Rank(LevelInfo)
    ensures Rank(a) == Rank(b) <==> a == b
  {
  }

  /** Raising the level never silences a message that was printed. */
  lemma EmitsMonotone(lower: LogLevel, higher: LogLevel, severity: LogLevel)
    requires Rank(lower) <= Rank(higher) && Emits(lower, severity)
    ensures Emits(higher, severity)
  {
  }

  /** One round of the lesson: an info message, a warning and an error, in that order. */
  method Round(log: Log) returns (emitted: seq<bool>)
    ensures emitted == [Emits(log.logLevel, LevelInfo), Emits(log.logLevel, LevelWarning), Emits(log.logLevel, LevelError)]
  {
    var info := log.Info("info message");
    var warn := log.Warn("warning message");
    var error := log.Error("error message");
    emitted := [info, warn, error];
  }

  /**
   * The lesson's three rounds: at the default level all three messages are
   * printed; at LevelWarning the info message is dropped; at LevelError only
   * the error is printed.
   */
  method ThreeRounds() returns (round1: seq<bool>, round2: seq<bool>, round3: seq<bool>)
    ensures round1 == [true, true, true]
    ensures round2 == [false, true, true]
    ensures round3 == [false, false, true]
  {
    var log := new Log();
    round1 := Round(log);
    log.SetLevel(LevelWarning);
    round2 := Round(log);
    log.SetLevel(LevelError);
    round3 := Round(log);
  }
}
