/**
 * The error taxonomy of the library (exception.py) together with the Python
 * built-in exceptions that the modelled code raises or catches.  Every kind
 * records its direct base class; `IsSubclass` is Python's `issubclass`.
 */
module Exceptions {
  import opened Wrappers

  datatype ErrorKind =
    // Python built-ins
    | Exception
    | TypeError
    | ValueError
    | OSError
    | FileNotFoundError
    | FileExistsError
    | NotADirectoryError
    | LookupError
    | IndexError
    | KeyError
    | StopIteration
    // argparse
    | ArgumentTypeError
    // the nine classes of exception.py
    | ArgumentConflictError
    | DirectoryExistsError
    | DirectoryNotFoundError
    | ExecutableNotFoundError
    | GetterError
    | IsAFileError
    | NotAFileError
    | NotAFileOrDirectoryError
    | UnsupportedPlatformError

  /** The direct base class of each kind; `Exception` is the root here. */
  function BaseClass(k: ErrorKind): (p: Option<ErrorKind>)
    ensures p.None? <==> k == Exception
    ensures p.Some? ==> Depth(p.value) + 1 == Depth(k)
  {
    match k
    case Exception => None
    case TypeError => Some(Exception)
    case ValueError => Some(Exception)
    case OSError => Some(Exception)
    case LookupError => Some(Exception)
    case StopIteration => Some(Exception)
    case ArgumentTypeError => Some(Exception)
    case FileNotFoundError => Some(OSError)
    case FileExistsError => Some(OSError)
    case NotADirectoryError => Some(OSError)
    case IndexError => Some(LookupError)
    case KeyError => Some(LookupError)
    case ArgumentConflictError => Some(Exception)
    case DirectoryExistsError => Some(OSError)
    case DirectoryNotFoundError => Some(OSError)
    case ExecutableNotFoundError => Some(OSError)
    case GetterError => Some(TypeError)
    case IsAFileError => Some(OSError)
    case NotAFileError => Some(OSError)
    case NotAFileOrDirectoryError => Some(OSError)
    case UnsupportedPlatformError => Some(OSError)
  }

  /** Distance from `Exception` in the class hierarchy. */
  function Depth(k: ErrorKind): nat {
    match k
    case Exception => 0
    case TypeError | ValueError | OSError | LookupError | StopIteration
      | ArgumentTypeError | ArgumentConflictError => 1
    case _ => 2
  }

  /** `issubclass(k, c)`: `c` is `k` or one of its ancestors. */
  predicate IsSubclass(k: ErrorKind, c: ErrorKind)
    decreases Depth(k)
  {
    k == c || (BaseClass(k).Some? && IsSubclass(BaseClass(k).value, c))
  }

  /** The nine classes that exception.py declares. */
  predicate IsLibraryError(k: ErrorKind) {
    k.ArgumentConflictError? || k.GetterError? || IsLibraryOSError(k)
  }

  /** The seven library classes that exception.py derives from OSError. */
  predicate IsLibraryOSError(k: ErrorKind) {
    || k.DirectoryExistsError? || k.DirectoryNotFoundError? || k.ExecutableNotFoundError?
    || k.IsAFileError? || k.NotAFileError? || k.NotAFileOrDirectoryError? || k.UnsupportedPlatformError?
  }

  /** Every kind descends from Exception. */
  lemma {:induction false} EveryKindIsAnException(k: ErrorKind)
    ensures IsSubclass(k, Exception)
    decreases Depth(k)
  {
    if k != Exception {
      EveryKindIsAnException(BaseClass(k).value);
    }
  }

  /** ArgumentConflictError derives only from Exception. */
  lemma ArgumentConflictErrorIsPlain()
    ensures BaseClass(ArgumentConflictError) == Some(Exception)
    ensures !IsSubclass(ArgumentConflictError, TypeError)
    ensures !IsSubclass(ArgumentConflictError, OSError)
  {
  }

  /** GetterError is a TypeError, so the argument wrappers convert it. */
  lemma GetterErrorIsTypeError()
    ensures IsSubclass(GetterError, TypeError)
    ensures !IsSubclass(GetterError, OSError)
  {
  }

  /** The seven OS-level library errors derive from OSError and not from TypeError. */
  lemma LibraryOSErrorsAreOSErrors(k: ErrorKind)
    requires IsLibraryOSError(k)
    ensures BaseClass(k) == Some(OSError)
    ensures IsSubclass(k, OSError) && !IsSubclass(k, TypeError)
  {
    DerivedFromOSError(k);
  }

  /** A direct subclass of OSError is an OSError and not a TypeError. */
  lemma DerivedFromOSError(k: ErrorKind)
    requires BaseClass(k) == Some(OSError)
    ensures IsSubclass(k, OSError) && !IsSubclass(k, TypeError)
  {
    assert !IsSubclass(Exception, TypeError);
    assert !IsSubclass(OSError, TypeError);
  }

  /** The hierarchy of exception.py is flat: no library class derives from another. */
  lemma LibraryHierarchyIsFlat(a: ErrorKind, b: ErrorKind)
    requires IsLibraryError(a) && IsLibraryError(b) && a != b
    ensures !IsSubclass(a, b)
  {
    var p := BaseClass(a).value;
    assert p == Exception || p == OSError || p == TypeError;
    assert !IsSubclass(Exception, b);
    assert !IsSubclass(p, b);
  }
}
