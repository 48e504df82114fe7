/**
 * `CLTool` (cltool.py), the older command-line tool base class.
 *
 * Its constructor configures logging itself, through an if/elif chain of
 * `logging.basicConfig(level=...)` calls, rather than through
 * `set_logging_verbosity`.  Its `*_arg` validator factories have the same
 * behaviour as those of command_line_tool.py (they differ only in how the
 * original error is chained) and are modelled once, in `CommandLineTool`.
 */
module CLTool {
  import opened Wrappers
  import opened Text
  import Logging
  import Logs
  import opened Exceptions
  import opened Validation
  import CommandLineTool
  import Cli = CommandLineInterface

  /** The level chosen by the constructor's chain; `None` would mean that no branch was taken. */
  function ChainLevel(verbosity: int): (r: Option<Logging.Level>)
    ensures verbosity <= 0 ==> r == Some(Logging.ERROR)
    ensures verbosity == 1 ==> r == Some(Logging.WARNING)
    ensures verbosity == 2 ==> r == Some(Logging.INFO)
    ensures verbosity >= 3 ==> r == Some(Logging.DEBUG)
  {
    if verbosity <= 0 then Some(Logging.ERROR)
    else if verbosity == 1 then Some(Logging.WARNING)
    else if verbosity == 2 then Some(Logging.INFO)
    else if verbosity >= 3 then Some(Logging.DEBUG)
    else None
  }

  /** Every integer takes a branch, and the chain agrees with both `set_logging_verbosity`s. */
  lemma ChainAgrees(verbosity: int, current: Logging.Level)
    ensures ChainLevel(verbosity).Some?
    ensures ChainLevel(verbosity).value == Logging.SetLoggingVerbosity(verbosity, current)
    ensures ChainLevel(verbosity).value == Logs.SetLoggingVerbosity(verbosity, current)
  {
    Logs.AgreesWithLogging(verbosity, current);
  }

  /** `cls.__name__.lower()`: the name of the subparser the tool adds to a subparsers group. */
  function SubparserName(className: string): (r: string)
    ensures |r| == |className|
    ensures forall i :: 0 <= i < |r| ==> r[i] == LowerChar(className[i])
  {
    Lower(className)
  }

  /** The three base classes name a tool alike only up to case and a trailing "Cli". */
  lemma SubparserNamesCompared(className: string)
    ensures SubparserName(className) == Lower(CommandLineTool.Name(className))
    ensures !EndsWith(className, "Cli") ==> SubparserName(className) == Cli.Name(className)
    ensures SubparserName(SubparserName(className)) == SubparserName(className)
  {
    LowerIdempotent(className);
  }

  /** The four `*_arg` factories, shared with command_line_tool.py: none of their
      validators raises a TypeError, and a ValueError is passed on unchanged. */
  lemma FactoriesNeverRaiseTypeError<V(!new)>(
    v: V, vs: Values<V>, toFloat: V -> Option<real>, toInt: V -> Option<int>, toStr: V -> Option<string>,
    minReal: Option<real>, maxReal: Option<real>, length: Option<int>, minInt: Option<int>, maxInt: Option<int>,
    options: seq<V>)
    ensures var r := CommandLineTool.FloatArg(toFloat, minReal, maxReal)(v);
      (r.Failure? ==> !IsSubclass(r.error, TypeError))
      && (ValidateFloat(v, toFloat, minReal, maxReal) == Failure(ValueError) ==> r == Failure(ValueError))
    ensures var r := CommandLineTool.IntArg(toInt, minInt, maxInt)(v);
      (r.Failure? ==> !IsSubclass(r.error, TypeError))
      && (ValidateInt(v, toInt, minInt, maxInt, None) == Failure(ValueError) ==> r == Failure(ValueError))
    ensures var r := CommandLineTool.IntsArg(toInt, length, minInt, maxInt)(vs);
      (r.Failure? ==> !IsSubclass(r.error, TypeError))
      && (ValidatedInts(vs, toInt, length, minInt, maxInt, None) == Failure(ValueError) ==> r == Failure(ValueError))
    ensures var r := CommandLineTool.StrArg(options, toStr)(v);
      (r.Failure? ==> !IsSubclass(r.error, TypeError))
      && (ValidatedStr(v, options, toStr) == Failure(ValueError) ==> r == Failure(ValueError))
  {
    assert !IsSubclass(Exception, TypeError);
    assert !IsSubclass(ArgumentConflictError, TypeError);
    assert !IsSubclass(ArgumentTypeError, TypeError);
    assert !IsSubclass(ValueError, TypeError);
  }

  class Tool {
    var verbosity: int

    /** `__init__(verbosity)`: validate and store the verbosity, then `basicConfig`
        with the level of the chain, which only takes effect while the root
        logger has no handler. */
    constructor (verbosity: int, root: Logging.RootLogger)
      modifies root
      ensures this.verbosity == verbosity
      ensures root.hasHandlers
      ensures old(root.hasHandlers) ==> root.level == old(root.level)
      ensures !old(root.hasHandlers) ==> root.level == Logging.SetLoggingVerbosity(verbosity, old(root.level))
      // negative verbosity is accepted and, on a fresh logger, gives ERROR
      ensures !old(root.hasHandlers) && verbosity < 0 ==> root.level == Logging.ERROR
    {
      var validated := ValidateInt(verbosity, CommandLineTool.IntCast, Some(0), None, None);
      CommandLineTool.VerbosityAlwaysValid(verbosity);
      this.verbosity := validated.value;
      new;
      ChainAgrees(this.verbosity, root.level);
      if this.verbosity <= 0 {
        root.BasicConfig(Some(Logging.ERROR));
      } else if this.verbosity == 1 {
        root.BasicConfig(Some(Logging.WARNING));
      } else if this.verbosity == 2 {
        root.BasicConfig(Some(Logging.INFO));
      } else if this.verbosity >= 3 {
        root.BasicConfig(Some(Logging.DEBUG));
      }
    }
  }
}
