/**
 * `set_logging_verbosity` (logging.py): the root logger's level as a
 * function of the verbosity.  The if/elif chain has no final `else`, so the
 * model takes the level the logger had before; the lemmas show that it never
 * matters.
 */
module Logging {
  import opened Wrappers

  /** The four standard levels used by the library. */
  datatype Level = DEBUG | INFO | WARNING | ERROR

  /** The numeric threshold of each level, as in Python's `logging` module. */
  function Threshold(level: Level): nat {
    match level
    case DEBUG => 10
    case INFO => 20
    case WARNING => 30
    case ERROR => 40
  }

  /** The root logger's level after `set_logging_verbosity(verbosity)`. */
  function SetLoggingVerbosity(verbosity: int, current: Level): Level {
    if verbosity <= 0 then ERROR
    else if verbosity == 1 then WARNING
    else if verbosity == 2 then INFO
    else if verbosity >= 3 then DEBUG
    else current
  }

  /** The step table: at most 0 is ERROR, 1 is WARNING, 2 is INFO, 3 or more is DEBUG. */
  lemma VerbosityTable(verbosity: int, current: Level)
    ensures verbosity <= 0 ==> SetLoggingVerbosity(verbosity, current) == ERROR
    ensures verbosity == 1 ==> SetLoggingVerbosity(verbosity, current) == WARNING
    ensures verbosity == 2 ==> SetLoggingVerbosity(verbosity, current) == INFO
    ensures verbosity >= 3 ==> SetLoggingVerbosity(verbosity, current) == DEBUG
  {
  }

  /** Every verbosity selects a level: the previous level is always overwritten. */
  lemma VerbosityIsTotal(verbosity: int, before: Level, other: Level)
    ensures SetLoggingVerbosity(verbosity, before) == SetLoggingVerbosity(verbosity, other)
  {
  }

  /** More verbosity never raises the threshold. */
  lemma VerbosityIsMonotone(low: int, high: int, current: Level)
    requires low <= high
    ensures Threshold(SetLoggingVerbosity(high, current)) <= Threshold(SetLoggingVerbosity(low, current))
  {
  }

  /**
   * Python's root logger, the global state that `basicConfig` and `setLevel`
   * change.  `hasHandlers` is whether a handler is attached; the root logger
   * starts at WARNING with none.
   */
  class RootLogger {
    var level: Level
    var hasHandlers: bool

    constructor ()
      ensures level == WARNING && !hasHandlers
    {
      level := WARNING;
      hasHandlers := false;
    }

    /** `logging.basicConfig(level=...)`: does nothing once a handler is attached;
        otherwise attaches one and sets the level when one is given. */
    method BasicConfig(newLevel: Option<Level>)
      modifies this
      ensures hasHandlers
      ensures old(hasHandlers) ==> level == old(level)
      ensures !old(hasHandlers) && newLevel.Some? ==> level == newLevel.value
      ensures !old(hasHandlers) && newLevel.None? ==> level == old(level)
    {
      if !hasHandlers {
        hasHandlers := true;
        if newLevel.Some? {
          level := newLevel.value;
        }
      }
    }

    /** `getLogger().setLevel(level)`. */
    method SetLevel(newLevel: Level)
      modifies this
      ensures level == newLevel && hasHandlers == old(hasHandlers)
    {
      level := newLevel;
    }
  }

  /** The effect of `set_logging_verbosity(verbosity)` on the root logger. */
  method ApplyVerbosity(root: RootLogger, verbosity: int)
    modifies root
    ensures root.hasHandlers
    ensures root.level == SetLoggingVerbosity(verbosity, old(root.level))
  {
    root.BasicConfig(None);
    if verbosity <= 0 {
      root.SetLevel(ERROR);
    } else if verbosity == 1 {
      root.SetLevel(WARNING);
    } else if verbosity == 2 {
      root.SetLevel(INFO);
    } else if verbosity >= 3 {
      root.SetLevel(DEBUG);
    }
  }
}
