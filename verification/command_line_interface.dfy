/**
 * The class-level text helpers of `CommandLineInterface`
 * (command_line_interface.py) and the keyword handling of its `main`.
 *
 * `name()` and `help()` are pure string functions of the class name and of
 * the description; `description()` takes `inspect.cleandoc` as a parameter.
 * `main` pops "verbosity" and "log_file" out of the parsed arguments before
 * forwarding the rest to `_main`; the model returns what `main` would do
 * instead of doing it.
 */
module CommandLineInterface {
  import opened Wrappers
  import opened Exceptions
  import opened Text
  import Logging

  // ----- name() -----

  /** `name()`: one trailing, case-sensitive "Cli" is removed, then the name is lowercased. */
  function Name(className: string): (r: string)
    ensures |r| == |className| - (if EndsWith(className, "Cli") then 3 else 0)
    ensures forall i :: 0 <= i < |r| ==> r[i] == LowerChar(className[i])
  {
    var stem := if EndsWith(className, "Cli") then className[..|className| - 3] else className;
    Lower(stem)
  }

  /** Only one "Cli" is removed, and "CLI" in another case is kept. */
  lemma NameStripsOnce(base: string)
    ensures Name(base + "CliCli") == Lower(base + "Cli")
    ensures |Name(base + "CLI")| == |base| + 3
  {
    var s := base + "CliCli";
    assert s[|s| - 3..] == "Cli";
    assert s[..|s| - 3] == base + "Cli";
    var t := base + "CLI";
    assert t[|t| - 3..] == "CLI";
  }

  // ----- description() and help() -----

  /** `description()`: the cleaned docstring, or "" when the docstring is missing or empty. */
  function Description(doc: Option<string>, cleandoc: string -> string): (r: string)
    ensures doc.None? || doc.value == [] ==> r == []
    ensures doc.Some? && doc.value != [] ==> r == cleandoc(doc.value)
  {
    if doc.Some? && doc.value != [] then cleandoc(doc.value) else ""
  }

  /** A match of the regular expression `\.\s+` starts at index `j` of `s`. */
  predicate BreakAt(s: string, j: int) {
    0 <= j && j + 1 < |s| && s[j] == '.' && IsSpace(s[j + 1])
  }

  /** `re.split(r"\.\s+", s)[0]`: the text before the first "." that is followed by whitespace. */
  function FirstSentence(s: string): (r: string)
    ensures |r| <= |s| && r == s[..|r|]
    ensures forall j :: 0 <= j < |r| ==> !BreakAt(s, j)
    ensures |r| < |s| ==> BreakAt(s, |r|)
  {
    if s == [] then ""
    else if BreakAt(s, 0) then ""
    else
      var rest := FirstSentence(s[1..]);
      assert forall j :: 1 <= j < |s| ==> (BreakAt(s, j) <==> BreakAt(s[1..], j - 1));
      [s[0]] + rest
  }

  /** The stripped first sentence that `help()` starts from. */
  function HelpText(description: string): (text: string)
    ensures |text| <= |description| && text == description[..|text|]
    ensures text == [] || text[|text| - 1] != '.'
    ensures forall j :: 0 <= j < |text| ==> !BreakAt(description, j)
  {
    RStrip(FirstSentence(description), '.')
  }

  /** `help()`: the stripped first sentence with its first character lowercased;
      `text[0]` raises IndexError when nothing is left. */
  function Help(description: string): (r: Result<string, ErrorKind>)
    ensures r.Failure? <==> HelpText(description) == []
    ensures r.Failure? ==> r.error == IndexError
    ensures r.Success? ==>
      && |r.value| == |HelpText(description)|
      && r.value[0] == LowerChar(description[0])
      && forall i :: 1 <= i < |r.value| ==> r.value[i] == description[i]
  {
    var text := HelpText(description);
    if text == [] then Failure(IndexError) else Success([LowerChar(text[0])] + text[1..])
  }

  /** Lowercasing never produces or removes a "." or a whitespace character. */
  lemma LowerCharKeepsPunctuation(c: char)
    ensures LowerChar(c) == '.' <==> c == '.'
    ensures IsSpace(LowerChar(c)) <==> IsSpace(c)
  {
  }

  /** A successful `help()` neither ends with "." nor contains "." followed by whitespace. */
  lemma HelpIsOneClause(description: string)
    requires Help(description).Success?
    ensures Help(description).value[|Help(description).value| - 1] != '.'
    ensures forall j :: !BreakAt(Help(description).value, j)
  {
    var text := HelpText(description);
    var h := Help(description).value;
    LowerCharKeepsPunctuation(text[0]);
    assert h[|h| - 1] != '.' by {
      if |h| > 1 { assert h[|h| - 1] == text[|text| - 1]; }
    }
    forall j ensures !BreakAt(h, j) {
      BreakComesFromDescription(description, text, h, j);
    }
  }

  /** A break in the lowercased text is a break in the description, inside the text. */
  lemma BreakComesFromDescription(description: string, text: string, h: string, j: int)
    requires text != [] && |text| <= |description| && text == description[..|text|]
    requires h == [LowerChar(text[0])] + text[1..]
    ensures BreakAt(h, j) ==> j < |text| && BreakAt(description, j)
  {
    LowerCharKeepsPunctuation(text[0]);
    if BreakAt(h, j) && j == 0 {
      assert text[0] == '.';
    }
  }

  /** Without a docstring, or with an empty one, `help()` raises IndexError. */
  lemma HelpWithoutDocstring(cleandoc: string -> string)
    ensures Help(Description(None, cleandoc)) == Failure(IndexError)
    ensures Help(Description(Some(""), cleandoc)) == Failure(IndexError)
  {
  }

  /** A description that starts with its first sentence's full stop and a space has no help text. */
  lemma HelpOfLeadingBreak(rest: string)
    ensures Help(". " + rest) == Failure(IndexError)
  {
    assert BreakAt(". " + rest, 0);
  }

  // ----- main() -----

  /** A value in the namespace returned by `parse_args`. */
  datatype ArgValue = IntValue(i: int) | StrValue(s: string) | NoneValue

  /** `bool(value)`. */
  predicate Truthy(v: ArgValue) {
    match v
    case IntValue(i) => i != 0
    case StrValue(s) => s != []
    case NoneValue => false
  }

  /** What `main` does with the parsed arguments: the logger level it sets, the
      log file it opens (if any) and the keyword arguments it passes to `_main`. */
  datatype MainCall = MainCall(level: Logging.Level, logFile: Option<string>, forwarded: map<string, ArgValue>)

  /** The verbosity that `main` would use, when it is usable. */
  predicate VerbosityUsable(kwargs: map<string, ArgValue>) {
    "verbosity" !in kwargs || kwargs["verbosity"].IntValue?
  }

  /** A log-file argument that `Path(...)` accepts or that is skipped. */
  predicate LogFileUsable(v: ArgValue) {
    !Truthy(v) || v.StrValue?
  }

  /**
   * The body of `main` after `parse_args`: pop "verbosity" (default 1) and set
   * the logging verbosity from it, pop "log_file" (a KeyError when it is
   * missing) and forward the rest.  A verbosity that is not an integer cannot
   * be compared with 0 and raises TypeError; the log file is opened only when
   * it is truthy, and `Path` raises TypeError on a truthy non-string.
   */
  method PrepareMain(kwargs: map<string, ArgValue>, current: Logging.Level) returns (r: Result<MainCall, ErrorKind>)
    ensures !VerbosityUsable(kwargs) ==> r == Failure(TypeError)
    ensures VerbosityUsable(kwargs) && "log_file" !in kwargs ==> r == Failure(KeyError)
    ensures VerbosityUsable(kwargs) && "log_file" in kwargs && !LogFileUsable(kwargs["log_file"]) ==>
      r == Failure(TypeError)
    ensures r.Success? <==>
      VerbosityUsable(kwargs) && "log_file" in kwargs && LogFileUsable(kwargs["log_file"])
    // exactly the other arguments reach `_main`, unchanged
    ensures r.Success? ==>
      && "verbosity" !in r.value.forwarded && "log_file" !in r.value.forwarded
      && r.value.forwarded.Keys <= kwargs.Keys
      && forall k :: k in kwargs && k != "verbosity" && k != "log_file" ==>
           k in r.value.forwarded && r.value.forwarded[k] == kwargs[k]
    ensures r.Success? && "verbosity" !in kwargs ==> r.value.level == Logging.WARNING
    ensures r.Success? && "verbosity" in kwargs ==>
      r.value.level == Logging.SetLoggingVerbosity(kwargs["verbosity"].i, current)
    ensures r.Success? ==>
      (r.value.logFile.Some? <==> Truthy(kwargs["log_file"]))
      && (r.value.logFile.Some? ==> r.value.logFile.value == kwargs["log_file"].s)
  {
    var rest := kwargs;
    var verbosity := IntValue(1);
    if "verbosity" in rest {
      verbosity := rest["verbosity"];
      rest := rest - {"verbosity"};
    }
    if !verbosity.IntValue? {
      return Failure(TypeError);
    }
    var level := Logging.SetLoggingVerbosity(verbosity.i, current);
    if "log_file" !in rest {
      return Failure(KeyError);
    }
    var logFile := rest["log_file"];
    rest := rest - {"log_file"};
    var path: Option<string> := None;
    if Truthy(logFile) {
      if !logFile.StrValue? {
        return Failure(TypeError);
      }
      path := Some(logFile.s);
    }
    r := Success(MainCall(level, path, rest));
  }
}
