/**
 * `set_logging_verbosity` in logs.py, a later copy of logging.py's function,
 * modelled on its own and proved equal to the original.
 */
module Logs {
  import Logging

  /** The root logger's level after logs.py's `set_logging_verbosity(verbosity)`. */
  function SetLoggingVerbosity(verbosity: int, current: Logging.Level): Logging.Level {
    if verbosity <= 0 then Logging.ERROR
    else if verbosity == 1 then Logging.WARNING
    else if verbosity == 2 then Logging.INFO
    else if verbosity >= 3 then Logging.DEBUG
    else current
  }

  /** The two copies agree on every verbosity. */
  lemma AgreesWithLogging(verbosity: int, current: Logging.Level)
    ensures SetLoggingVerbosity(verbosity, current) == Logging.SetLoggingVerbosity(verbosity, current)
  {
  }

  /** Total and monotone, like the original. */
  lemma TotalAndMonotone(low: int, high: int, before: Logging.Level, other: Logging.Level)
    requires low <= high
    ensures SetLoggingVerbosity(low, before) == SetLoggingVerbosity(low, other)
    ensures Logging.Threshold(SetLoggingVerbosity(high, before))
         <= Logging.Threshold(SetLoggingVerbosity(low, before))
  {
  }
}
