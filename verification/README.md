# common: a verified model of the validation, argument-group, backup-renaming and CLI helpers

This project models the logic core of the Python support library `common` in Dafny and
proves properties of that model. The core covers:

- **Scalar validation** (`validation.py`).
  - `validate_int`, `validate_float`, `validate_ints` and `validate_str`. Bounds and option
    sets are tested by truthiness, so a bound of `0` is never enforced.
  - The input and output path validators, run over an abstract filesystem.
- **Argument-group surgery** (`argument_parsing.py`, copied into `command_line_tool.py`).
  - The parser's list of argument groups is a field of an `ArgumentParser` class that the
    methods reassign.
  - `get_arg_groups_by_name` is proved against reference functions for its two loops.
  - A Python `dict` is an association list that keeps insertion order.
- **Error translation** (`get_validator` and the `*_arg` validator factories). A
  `TypeError`, or any subclass of it, becomes `ArgumentTypeError`; every other error passes
  through.
- **Backup renaming** (`file.py` with pathlib paths, `files.py` with `os.path` strings).
  - A loop looks for the first free numbered sibling and moves the file there.
  - The filesystem is a class whose single field maps paths to entries.
- **Tool names and help strings** (`command_line_interface.py`, `command_line_tool.py`,
  `cltool.py`), and the keyword handling of `CommandLineInterface.main`.
- **Verbosity to log level** (`logging.py`, `logs.py`, and inline in `cltool.py`).
  - Three copies of one step function, proved to agree.
  - The root logger is a class, so `basicConfig`'s do-nothing-once-configured behaviour
    is visible.
- **The error taxonomy** (`exception.py`). A datatype of error kinds, each with its Python
  base class.

Python's casts `int(x)`, `float(x)` and `str(x)` are function parameters of type
`V -> Option<...>`; `None` means the cast raised. `os.getcwd()`, `expandvars`, `normpath`
and `cleandoc` are also parameters. Floats are mathematical reals.

## Model

| member | source | states |
|---|---|---|
| Exceptions.BaseClass | exception.py:8-41 | ArgumentConflictError derives from Exception, GetterError from TypeError, the seven others from OSError; only Exception has no base |
| Exceptions.EveryKindIsAnException | exception.py:8-41 | every error kind is a subclass of Exception |
| Exceptions.ArgumentConflictErrorIsPlain | exception.py:8-9 | ArgumentConflictError is neither a TypeError nor an OSError, so no wrapper converts it |
| Exceptions.GetterErrorIsTypeError | exception.py:24-25 | GetterError is a TypeError and not an OSError |
| Exceptions.LibraryOSErrorsAreOSErrors | exception.py:12-41 | the seven OS-level classes derive directly from OSError and are not TypeErrors |
| Exceptions.LibraryHierarchyIsFlat | exception.py:8-41 | no class of exception.py is a subclass of another |
| Text.Lower | command_line_interface.py:131 | `str.lower()`: same length, each ASCII capital replaced by its lowercase letter |
| Text.RStrip | command_line_interface.py:99 | `rstrip(c)` keeps a prefix, removes only `c`s and leaves no trailing `c` |
| Text.Pad3RoundTrip | file.py:69 | reading back the `{i:03d}` text gives `i` |
| Text.Pad3Injective | files.py:50 | distinct indices give distinct `{i:03d}` texts |
| Validation.ValidateInt | validation.py:179-217 | ArgumentConflictError iff both bounds are truthy and min >= max, checked before the cast; TypeError iff the cast fails; success iff every truthy bound and non-empty option set admits the cast value, which is returned |
| Validation.ZeroBoundIsIgnored | validation.py:210-213 | `validate_int(-5, min_value=0)` style calls succeed: a zero bound is not enforced |
| Validation.ValidateFloat | validation.py:54-84 | as `validate_int` over reals, without options |
| Validation.Elements | validation.py:244-247 | an unsized argument is wrapped into a one-element list |
| Validation.ValidateEach | validation.py:249-251 | succeeds iff every element validates, giving one result per element in order; otherwise fails with the first failing element's error |
| Validation.ValidatedInts | validation.py:220-259 | conflict first, then element errors, then the length check, which applies only to a truthy length; a success has one admissible value per element |
| Validation.ValidateAll | validation.py:249-251 | the append loop computes exactly the element-wise validation |
| Validation.ValidateInts | validation.py:220-259 | the procedure returns exactly the reference result of `validate_ints` |
| Validation.CastAll | validation.py:334-341 | every option casts, or the failure is reported; the cast options keep their order |
| Validation.OptionMapLastWins | validation.py:334-342 | the dict's keys are the lowercased options, and each key maps to the last option with that lowercase form |
| Validation.ValidatedStr | validation.py:321-355 | ArgumentConflictError when an option fails to cast, then TypeError for the value; success returns the last option equal to the value up to case; ValueError iff no option matches |
| Validation.CaseInsensitiveOptions | validation.py:334-342 | the option loop builds exactly the last-wins dictionary, or reports an option that fails to cast |
| Validation.ValidateStr | validation.py:321-355 | the procedure returns exactly the reference result of `validate_str` |
| Validation.ValidateInputFilePath | validation.py:134-154 | NotAFileError iff the path exists and is not a file; FileNotFoundError iff missing and strict; otherwise the path is returned |
| Validation.ValidateInputDirectoryPath | validation.py:87-107 | NotADirectoryError iff the path exists and is not a directory; DirectoryNotFoundError iff missing and strict |
| Validation.MakeDirs | validation.py:290 | `mkdir(parents=True)` succeeds iff the path is missing and its nearest existing ancestor is a directory; every path from the nearest existing ancestor down to the path becomes a directory, nothing else is added, and every existing entry is kept; FileExistsError when the path exists |
| Validation.ValidateOutputFilePath | validation.py:262-293 | FileExistsError when the path exists and strict, checked before NotAFileError; DirectoryNotFoundError for a missing parent without `parents`; otherwise the missing parent is created |
| Validation.ValidateOutputDirectoryPath | validation.py:296-318 | an existing directory is returned unchanged; NotADirectoryError when the path exists and is not a directory; a missing directory is created, and on success every missing ancestor down from the nearest existing one is a directory too |
| ArgumentParsing.Lookup | argument_parsing.py:108 | the subscript `d[k]` of the returned dict, in whose terms MergeLookup is stated: a value is found iff `k` is a key, and it is the one stored with `k` |
| ArgumentParsing.Put | argument_parsing.py:90 | `d[k] = v`: a new key goes last, an existing key keeps its place; afterwards `k` maps to `v` |
| ArgumentParsing.PutLookupOther | argument_parsing.py:103 | storing one key leaves every other key's value unchanged |
| ArgumentParsing.PutKeepsKeysDistinct | argument_parsing.py:103 | storing never duplicates a key |
| ArgumentParsing.MergeLookup | argument_parsing.py:108 | `{**a, **b}` gives `b`'s value for `b`'s keys and `a`'s value for the others |
| ArgumentParsing.FirstTitled | argument_parsing.py:88-91 | the index of the first group with the title, or none when no group has it |
| ArgumentParsing.FindTitled | argument_parsing.py:88-91 | a group is found iff some group carries the title; the group found is in the list |
| ArgumentParsing.FindTitledAfterRemoval | argument_parsing.py:90 | popping a group with another title does not change which group a title finds |
| ArgumentParsing.RenameOptional | argument_parsing.py:100-101 | "options" and "optional arguments" are renamed to `optional_arguments_name`; the group keeps its identity |
| ArgumentParsing.Surviving | argument_parsing.py:96-106 | the groups kept after the while loop, in reverse order; every one has a non-empty title |
| ArgumentParsing.CollectAdditionalEntries | argument_parsing.py:96-103 | `additional_groups` has distinct keys, exactly the surviving titles, each filed under its own title |
| ArgumentParsing.CollectAdditionalInReverse | argument_parsing.py:96-106 | with distinct surviving titles, the unrequested groups come back in reverse of their prior order |
| ArgumentParsing.SelectAllRemaining | argument_parsing.py:85-94 | the name loop does not change which group an unrequested title finds |
| ArgumentParsing.UnrequestedStep | argument_parsing.py:88-94 | with distinct titles, one more name takes exactly the first remaining group with that title out of the list |
| ArgumentParsing.SelectAllKeepsOrder | argument_parsing.py:85-94 | with distinct titles, the pops leave exactly `Unrequested`: the groups whose title was not requested, in their original order |
| ArgumentParsing.AdditionalInReverseOfParser | argument_parsing.py:85-108 | with distinct titles, the unrequested groups come back after the requested ones in reverse of their order in the parser, renamed and without the untitled ones |
| ArgumentParsing.SelectAllSpecified | argument_parsing.py:85-94 | for distinct names, `specified_groups` has the names in order; each maps to the first pre-existing group with that title, or to a new group when there was none |
| ArgumentParsing.ArgumentParser.AddArgumentGroup | argument_parsing.py:93 | `add_argument_group` appends a new group with a fresh identity |
| ArgumentParsing.ArgumentParser.GetOptionalArgumentsGroup | argument_parsing.py:28-37 | the first group titled "optional arguments"; StopIteration iff there is none; the list is not changed; command_line_tool.py:156-163 has the same body |
| ArgumentParsing.ArgumentParser.GetRequiredArgumentsGroup | argument_parsing.py:40-57 | an existing "required arguments" group is returned with the list unchanged; otherwise a new group is inserted just before the last group and found by a second call; IndexError on an empty list; command_line_tool.py:165-178 has the same body |
| ArgumentParsing.ArgumentParser.SelectGroup | argument_parsing.py:86-94 | one pass pops the first matching group, or adds and pops a new one |
| ArgumentParsing.ArgumentParser.SelectGroups | argument_parsing.py:85-94 | the name loop ends in the reference selection |
| ArgumentParsing.ArgumentParser.PopAdditional | argument_parsing.py:96-103 | the while loop empties the list and builds exactly the reference `additional_groups` |
| ArgumentParsing.ArgumentParser.GetArgGroupsByName | argument_parsing.py:60-108 | the list becomes the requested groups followed by the surviving groups; the returned dict merges both |
| ArgumentParsing.TranslateError | argument_parsing.py:123-124 | a TypeError or subclass becomes ArgumentTypeError, any other error is kept; the result is never a TypeError |
| ArgumentParsing.GetValidator | argument_parsing.py:111-126 | the wrapper returns the validator's success unchanged, turns TypeError and its subclasses into ArgumentTypeError, and passes every other error through |
| File.Suffix | file.py:69 | pathlib's suffix: empty, or a final dot-part of the name that is not the whole name |
| File.Stem | file.py:69 | stem and suffix concatenate back to the name |
| File.BackupName | file.py:69 | the backup name differs from the original name |
| File.BackupPath | file.py:69 | `with_stem` fails with ValueError exactly on the root; otherwise the backup is a different sibling |
| File.BackupNameInjective | file.py:69 | different indices give different backup names |
| File.BackupKeepsSuffix | file.py:69 | the backup keeps the suffix, and its stem is the old stem plus "_" and the padded index |
| File.BackupPathInjective | file.py:69 | different indices give different backup paths |
| File.BackupsTakenStep | file.py:70-74 | a taken backup extends the run of taken indices by one |
| File.FreshBackup | file.py:68-74 | the next candidate is never one already tried, so the search makes progress |
| File.RenamePreexistingOutputPath | file.py:59-74 | a missing path changes nothing; otherwise the file moves to the smallest free backup index and nothing else changes; the root gives ValueError |
| FileSystems.FileSystem.Move | file.py:72 | the moved entry appears at the destination, the source disappears, other entries are unchanged |
| FileSystems.Shrinks | file.py:68-74 | each failed candidate shrinks the set of untried existing paths, so the loop ends |
| Files.Basename | files.py:32 | the basename contains no "/" |
| Files.Dirname | files.py:44 | the directory is a prefix of the path without a trailing "/" (unless it is only slashes) |
| Files.Join | files.py:50 | an absolute second part replaces the first; otherwise the result ends with it |
| Files.SplitJoin | files.py:44-50 | the basename and directory of a joined name are the name and the directory |
| Files.SplitExt | files.py:32 | the extension is empty or a "." followed by no "." or "/" |
| Files.SplitExtCutsIff | files.py:32 | `splitext` splits exactly when the last component has a "." with something other than dots before it in that component |
| Files.SplitExtOfDottedName | files.py:32 | a name of a stem that is not only dots, a "." and a dot-free extension splits into the path up to the stem and "." plus the extension |
| Files.SplitExtConcat | files.py:32-36 | root and extension concatenate back to the path |
| Files.SplitExtRoot | files.py:32 | a split never leaves a basename of only dots |
| Files.GetExt | files.py:31-32 | the extension contains no "." or "/" |
| Files.GetName | files.py:35-36 | the name contains no "/" |
| Files.LStripIsSuffix | files.py:32 | `lstrip(c)` keeps a suffix of its input and removes only leading `c`s |
| Files.StripExtension | files.py:32 | `strip(".")` of an extension drops exactly its leading dot |
| Files.NameAndExt | files.py:31-36 | with an extension, `name + "." + ext` is the basename; without one, the extension is "" and the name is the basename |
| Files.NameDotExt | files.py:31-36 | with an extension, `name + "." + ext` rebuilds the basename |
| Files.BackupName | files.py:50 | a backup name is never empty and contains no "/" when its parts contain none |
| Files.BackupOutfile | files.py:44-50 | the backup sits in the same directory as the original, under the backup name, and differs from the original |
| Files.BackupNameInjective | files.py:50 | different indices give different backup names |
| Files.BackupOutfileInjective | files.py:48-56 | different indices give different backup paths |
| Files.NoExtensionBackup | files.py:44-50 | a file without an extension keeps its whole basename and gets a trailing dot, so "/srv/data" backs up to "/srv/data_000."; the backup stays in the same directory |
| Files.AbsoluteOutfile | files.py:40-43 | variables are expanded, a relative path is joined to the working directory, then normalised |
| Files.AbsoluteBeforeNormalising | files.py:41-42 | with an absolute working directory, the path handed to normalisation is absolute |
| Files.OutfileBackupsTakenStep | files.py:51-56 | a taken backup extends the run of taken indices by one |
| Files.FreshOutfileBackup | files.py:49-56 | the next candidate is never one already tried |
| Files.MoveToFreeBackup | files.py:48-56 | the file moves to the smallest free backup index, all lower indices being taken, and nothing else changes |
| Files.RenamePreexistingOutfile | files.py:39-56 | a missing target changes nothing; an existing one is renamed to its smallest free backup |
| Logging.VerbosityTable | logging.py:16-23 | at most 0 gives ERROR, 1 WARNING, 2 INFO, at least 3 DEBUG |
| Logging.VerbosityIsTotal | logging.py:16-23 | every integer selects a level, whatever the level before |
| Logging.VerbosityIsMonotone | logging.py:16-23 | higher verbosity never gives a higher threshold |
| Logging.RootLogger.BasicConfig | logging.py:15 | `basicConfig` attaches a handler and sets the level only when no handler is attached yet |
| Logging.RootLogger.SetLevel | logging.py:17 | `setLevel` changes the level and nothing else |
| Logging.ApplyVerbosity | logging.py:9-23 | the root logger ends with a handler and the level the table gives |
| Logs.AgreesWithLogging | logs.py:17-24 | the logs.py mapping equals the logging.py mapping for every integer |
| Logs.TotalAndMonotone | logs.py:17-24 | the logs.py mapping is total and monotone |
| CommandLineInterface.Name | command_line_interface.py:125-131 | the class name, less one trailing case-sensitive "Cli", lowercased |
| CommandLineInterface.NameStripsOnce | command_line_interface.py:129-130 | only one "Cli" is removed, and "CLI" is not removed |
| CommandLineInterface.Description | command_line_interface.py:91-94 | "" when the docstring is missing or empty, otherwise the cleaned docstring |
| CommandLineInterface.FirstSentence | command_line_interface.py:99 | the prefix before the first "." followed by whitespace, or all of the text |
| CommandLineInterface.HelpText | command_line_interface.py:99 | a prefix of the description that does not end with "." and contains no sentence break |
| CommandLineInterface.Help | command_line_interface.py:96-100 | IndexError iff the stripped first sentence is empty; otherwise it with the first character lowercased |
| CommandLineInterface.HelpIsOneClause | command_line_interface.py:99-100 | a successful help never ends with "." and contains no "." followed by whitespace |
| CommandLineInterface.HelpWithoutDocstring | command_line_interface.py:94-100 | without a docstring, or with an empty one, help raises IndexError |
| CommandLineInterface.HelpOfLeadingBreak | command_line_interface.py:99-100 | a description starting with ". " has no help text |
| CommandLineInterface.PrepareMain | command_line_interface.py:102-123 | verbosity defaults to 1 and sets the level; a missing "log_file" is a KeyError; `_main` receives exactly the other arguments, unchanged |
| CommandLineTool.Description | command_line_tool.py:116-120 | "" when there is no docstring, otherwise the cleaned docstring |
| CommandLineTool.DescriptionsAgree | command_line_tool.py:116-120 | the tool and the interface descriptions agree on every docstring, because `cleandoc("")` is "" |
| CommandLineTool.Help | command_line_tool.py:122-127 | the stripped first sentence, case unchanged; never fails |
| CommandLineTool.HelpAgreesUpToCase | command_line_tool.py:127 | the interface's help is the tool's help with its first letter lowercased, and fails iff the tool's help is empty |
| CommandLineTool.NamesCompared | command_line_tool.py:129-133 | the tool's name is the class name; the interface lowercases it |
| CommandLineTool.FloatArg | command_line_tool.py:135-154 | `validate_float`'s success and ValueError pass through, a failed cast becomes ArgumentTypeError, a conflict stays ArgumentConflictError |
| CommandLineTool.IntArg | command_line_tool.py:207-226 | `validate_int`'s success and ValueError pass through, a failed cast becomes ArgumentTypeError, a conflict stays ArgumentConflictError |
| CommandLineTool.IntsArg | command_line_tool.py:228-250 | `validate_ints`'s success and ValueError pass through, TypeError becomes ArgumentTypeError, a conflict stays ArgumentConflictError |
| CommandLineTool.StrArg | command_line_tool.py:279-295 | `validate_str`'s success, ValueError and ArgumentConflictError pass through, TypeError becomes ArgumentTypeError |
| CommandLineTool.VerbosityAlwaysValid | command_line_tool.py:39 | `validate_int(verbosity, min_value=0)` accepts every integer, negative ones included |
| CommandLineTool.Tool.constructor | command_line_tool.py:32-40 | stores the verbosity and sets the root level from it; a negative verbosity gives ERROR |
| CLTool.ChainLevel | cltool.py:44-51 | the if/elif chain's level for each range of verbosity |
| CLTool.ChainAgrees | cltool.py:44-51 | every integer takes a branch, and the chain equals both `set_logging_verbosity` mappings |
| CLTool.SubparserName | cltool.py:81-83 | the subparser name is the lowercased class name |
| CLTool.SubparserNamesCompared | cltool.py:83 | it equals the interface's name when the class name does not end in "Cli", and lowering again changes nothing |
| CLTool.FactoriesNeverRaiseTypeError | cltool.py:122-270 | the `float_arg`, `int_arg`, `ints_arg` and `str_arg` validators never raise a TypeError, and a ValueError from the underlying validator reaches the caller unchanged |
| CLTool.Tool.constructor | cltool.py:41-51 | stores the verbosity; on a logger without handlers, sets the chain's level (ERROR for negative verbosity); otherwise keeps the level |

## Left out

- Error messages are not modelled, only error kinds. The known message slips are therefore not captured:
  - `validate_int` says "float" and `validate_float` says "int" (validation.py:76, validation.py:207).
  - The conflict message states the opposite of the check (validation.py:70, validation.py:201).
  - `validate_ints` reports `min_value` where it means `length` (validation.py:256).
- Exception chaining (`raise ... from error`, `ArgumentTypeError(e)`) is not modelled; only the kind raised is.
- `int()`, `float()` and `str()` are abstract partial functions. Their parsing rules are not modelled. `None` stands for an exception that the source turns into the modelled error kind.
- Validation.ValidateFloat: floats are mathematical reals, so NaN, infinities and rounding are not modelled.
- Text.Lower: `str.lower()` is modelled on ASCII letters only. Whitespace in the `\s` class is ASCII only.
- `Path.resolve`, `expandvars`, `normpath`, `cleandoc`, `os.getcwd` and the process's environment are not modelled; they are inputs or parameters.
- FileSystems.FileSystem.Move: moving a directory does not carry its subtree, and symbolic links are not modelled.
- The `info` logging calls and the `print` in `rename_preexisting_outfile` are left out (output only).
- CommandLineInterface.PrepareMain: opening the log file handler, `handlers.clear()`, `basicConfig()` and the call to `_main` itself are left out. The model returns the level, the log file and the forwarded keywords.
- The constructors take an already-integral verbosity. A non-integer argument to `__init__` is not modelled.
- `set_logging_verbosity` is imported by command_line_tool.py from general.py, which does not define it. The model uses the logging.py function.
- `argparse` itself is not modelled: parser construction, `parse_args`, `construct_argparser`, `add_arguments_to_argparser` and `main` beyond its keyword handling.
- Not modelled:
  - the `input_path_arg`/`output_path_arg` factories, because their validators do not exist in validation.py;
  - argument_parsing.py's one-line `*_arg` factories, which are `get_validator` applied to a validator;
  - the plural path validators;
  - `validate_executable` and `validate_type`.
- Not part of this model: general.py (`run_command`, `run_command_long`: subprocesses), the temporary file helpers of file.py and files.py, configurable_command_line_tool.py, testing.py, typing.py and `__init__.py`.
- ArgumentParsing.CollectAdditionalInReverse: the reverse order is proved only when the surviving titles are distinct. With repeated titles, a later duplicate overwrites an earlier entry's value in place, and CollectAdditionalEntries states what holds then.
- ArgumentParsing.SelectAllKeepsOrder: the list left by the name loop is characterised only when the parser's titles are distinct. With a repeated title, only the first group with it is popped per request, and SelectAllRemaining states what holds then. AdditionalInReverseOfParser inherits this condition and the one of CollectAdditionalInReverse.
- ArgumentParsing.SelectAllSpecified: the order and choice of groups is proved for distinct names. With a repeated name, the dict keeps the name's first position and the last group, and only SelectAll itself describes it.
