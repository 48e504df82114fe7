/**
 * `CommandLineTool` (command_line_tool.py): the class-level text helpers, the
 * argument validator factories and the constructor.
 *
 * The argument-group helpers of this class have the same bodies as those of
 * argument_parsing.py and are modelled once, by
 * `ArgumentParsing.ArgumentParser`.  The constructor's `set_logging_verbosity`
 * is imported from general.py, which does not define it; the model uses the
 * logging.py function of that name.
 */
module CommandLineTool {
  import opened Wrappers
  import opened Exceptions
  import opened Text
  import opened Validation
  import ArgumentParsing
  import Logging
  import Cli = CommandLineInterface

  // ----- description, help, name -----

  /** `description`: the cleaned docstring, or "" when there is no docstring. */
  function Description(doc: Option<string>, cleandoc: string -> string): (r: string)
    ensures doc.None? ==> r == []
    ensures doc.Some? ==> r == cleandoc(doc.value)
  {
    if doc.Some? then cleandoc(doc.value) else ""
  }

  /** The two `description`s agree on every docstring: the interface skips
      `cleandoc` on an empty docstring, and `cleandoc("")` is "" anyway. */
  lemma DescriptionsAgree(doc: Option<string>, cleandoc: string -> string)
    ensures doc != Some("") ==> Description(doc, cleandoc) == Cli.Description(doc, cleandoc)
    ensures cleandoc("") == "" ==> Description(doc, cleandoc) == Cli.Description(doc, cleandoc)
  {
  }

  /** `help`: the first sentence with trailing dots stripped, case unchanged; never fails. */
  function Help(description: string): (r: string)
    ensures |r| <= |description| && r == description[..|r|]
    ensures r == [] || r[|r| - 1] != '.'
    ensures forall j :: 0 <= j < |r| ==> !Cli.BreakAt(description, j)
  {
    Cli.HelpText(description)
  }

  /** The interface's `help()` is the tool's `help` with its first character
      lowercased, and fails exactly when the tool's `help` is empty. */
  lemma HelpAgreesUpToCase(description: string)
    ensures Cli.Help(description).Failure? <==> Help(description) == []
    ensures Cli.Help(description).Success? ==>
      Cli.Help(description).value == [LowerChar(Help(description)[0])] + Help(description)[1..]
  {
  }

  /** `name`: the class name itself. */
  function Name(className: string): string {
    className
  }

  /** The tool's name keeps the class name; the interface's lowercases it and drops "Cli". */
  lemma NamesCompared(className: string)
    ensures Name(className) == className
    ensures !EndsWith(className, "Cli") ==> Cli.Name(className) == Lower(Name(className))
  {
  }

  // ----- the *_arg validator factories -----

  /** `float_arg(min_value, max_value)`: `validate_float` with TypeError turned into ArgumentTypeError. */
  function FloatArg<V(!new)>(toFloat: V -> Option<real>, minValue: Option<real>, maxValue: Option<real>)
    : (f: V -> Result<real, ErrorKind>)
    ensures forall v :: ValidateFloat(v, toFloat, minValue, maxValue).Success? ==>
      f(v) == ValidateFloat(v, toFloat, minValue, maxValue)
    ensures forall v :: RealBoundsConflict(minValue, maxValue) ==> f(v) == Failure(ArgumentConflictError)
    ensures forall v :: !RealBoundsConflict(minValue, maxValue) && toFloat(v).None? ==>
      f(v) == Failure(ArgumentTypeError)
    ensures forall v :: ValidateFloat(v, toFloat, minValue, maxValue) == Failure(ValueError) ==>
      f(v) == Failure(ValueError)
    ensures forall v :: f(v).Failure? ==>
      f(v).error == ArgumentConflictError || f(v).error == ArgumentTypeError || f(v).error == ValueError
  {
    ArgumentParsing.GetValidator((v: V) => ValidateFloat(v, toFloat, minValue, maxValue))
  }

  /** `int_arg(min_value, max_value)`: `validate_int` with TypeError turned into ArgumentTypeError. */
  function IntArg<V(!new)>(toInt: V -> Option<int>, minValue: Option<int>, maxValue: Option<int>)
    : (f: V -> Result<int, ErrorKind>)
    ensures forall v :: ValidateInt(v, toInt, minValue, maxValue, None).Success? ==>
      f(v) == ValidateInt(v, toInt, minValue, maxValue, None)
    ensures forall v :: BoundsConflict(minValue, maxValue) ==> f(v) == Failure(ArgumentConflictError)
    ensures forall v :: !BoundsConflict(minValue, maxValue) && toInt(v).None? ==>
      f(v) == Failure(ArgumentTypeError)
    ensures forall v :: ValidateInt(v, toInt, minValue, maxValue, None) == Failure(ValueError) ==>
      f(v) == Failure(ValueError)
    ensures forall v :: f(v).Failure? ==>
      f(v).error == ArgumentConflictError || f(v).error == ArgumentTypeError || f(v).error == ValueError
  {
    ArgumentParsing.GetValidator((v: V) => ValidateInt(v, toInt, minValue, maxValue, None))
  }

  /** `ints_arg(length, min_value, max_value)`: `validate_ints` with TypeError turned into ArgumentTypeError. */
  function IntsArg<V(!new)>(toInt: V -> Option<int>, length: Option<int>, minValue: Option<int>,
                            maxValue: Option<int>): (f: Values<V> -> Result<seq<int>, ErrorKind>)
    ensures forall vs :: ValidatedInts(vs, toInt, length, minValue, maxValue, None).Success? ==>
      f(vs) == ValidatedInts(vs, toInt, length, minValue, maxValue, None)
    ensures forall vs :: ValidatedInts(vs, toInt, length, minValue, maxValue, None) == Failure(TypeError) ==>
      f(vs) == Failure(ArgumentTypeError)
    ensures forall vs :: ValidatedInts(vs, toInt, length, minValue, maxValue, None) == Failure(ValueError) ==>
      f(vs) == Failure(ValueError)
    ensures forall vs :: BoundsConflict(minValue, maxValue) ==> f(vs) == Failure(ArgumentConflictError)
    ensures forall vs :: f(vs).Failure? ==> !IsSubclass(f(vs).error, TypeError)
  {
    ArgumentParsing.GetValidator((vs: Values<V>) => ValidatedInts(vs, toInt, length, minValue, maxValue, None))
  }

  /** `str_arg(options)`: `validate_str` with TypeError turned into ArgumentTypeError. */
  function StrArg<V(!new)>(options: seq<V>, toStr: V -> Option<string>): (f: V -> Result<string, ErrorKind>)
    ensures forall v :: ValidatedStr(v, options, toStr).Success? ==> f(v) == ValidatedStr(v, options, toStr)
    ensures forall v :: ValidatedStr(v, options, toStr) == Failure(TypeError) ==> f(v) == Failure(ArgumentTypeError)
    ensures forall v :: ValidatedStr(v, options, toStr) == Failure(ValueError) ==> f(v) == Failure(ValueError)
    ensures forall v :: ValidatedStr(v, options, toStr) == Failure(ArgumentConflictError) ==>
      f(v) == Failure(ArgumentConflictError)
    ensures forall v :: f(v).Failure? ==> !IsSubclass(f(v).error, TypeError)
  {
    ArgumentParsing.GetValidator((v: V) => ValidatedStr(v, options, toStr))
  }

  // ----- the tool object -----

  /** `int(verbosity)` for an argument that already is an int. */
  function IntCast(x: int): (r: Option<int>)
    ensures r == Some(x)
  {
    Some(x)
  }

  /** `validate_int(verbosity, min_value=0)` accepts every integer: a zero bound is falsy. */
  lemma VerbosityAlwaysValid(verbosity: int)
    ensures ValidateInt(verbosity, IntCast, Some(0), None, None) == Success(verbosity)
  {
    ZeroBoundIsIgnored(verbosity, IntCast, verbosity);
  }

  class Tool {
    var verbosity: int

    /** `__init__(verbosity)`: validate and store the verbosity, then set the root logger's level. */
    constructor (verbosity: int, root: Logging.RootLogger)
      modifies root
      ensures this.verbosity == verbosity
      ensures root.hasHandlers
      ensures root.level == Logging.SetLoggingVerbosity(verbosity, old(root.level))
      // negative verbosity is accepted and silences everything below ERROR
      ensures verbosity < 0 ==> root.level == Logging.ERROR
    {
      var validated := ValidateInt(verbosity, IntCast, Some(0), None, None);
      VerbosityAlwaysValid(verbosity);
      this.verbosity := validated.value;
      new;
      Logging.ApplyVerbosity(root, validated.value);
    }
  }
}
