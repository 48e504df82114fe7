/**
 * Scalar and path validators (validation.py).
 *
 * Python's `int(value)`, `float(value)` and `str(value)` are not modelled;
 * each validator takes the cast as a function parameter whose `None` result
 * means that the cast raised.  Bounds and option collections are tested by
 * truthiness, exactly as the source does: `None`, `0` and an empty collection
 * are all "absent".
 */
module Validation {
  import opened Wrappers
  import opened Exceptions
  import opened Text
  import opened FileSystems

  // ----- truthiness of the optional arguments -----

  /** `bool(bound)` for an optional int: `None` and `0` are falsy. */
  predicate IsTruthy(bound: Option<int>) {
    bound.Some? && bound.value != 0
  }

  /** `bool(bound)` for an optional float: `None` and `0.0` are falsy. */
  predicate IsTruthyReal(bound: Option<real>) {
    bound.Some? && bound.value != 0.0
  }

  /** `bool(options)`: `None` and an empty collection are falsy. */
  predicate HasOptions(options: Option<seq<int>>) {
    options.Some? && |options.value| > 0
  }

  /** Both bounds are in force and they leave no room (equal bounds conflict too). */
  predicate BoundsConflict(minValue: Option<int>, maxValue: Option<int>) {
    IsTruthy(minValue) && IsTruthy(maxValue) && minValue.value >= maxValue.value
  }

  predicate RealBoundsConflict(minValue: Option<real>, maxValue: Option<real>) {
    IsTruthyReal(minValue) && IsTruthyReal(maxValue) && minValue.value >= maxValue.value
  }

  /** `x` meets every constraint that is in force. */
  predicate Admissible(x: int, minValue: Option<int>, maxValue: Option<int>, options: Option<seq<int>>) {
    && (!IsTruthy(minValue) || x >= minValue.value)
    && (!IsTruthy(maxValue) || x <= maxValue.value)
    && (!HasOptions(options) || x in options.value)
  }

  predicate AdmissibleReal(x: real, minValue: Option<real>, maxValue: Option<real>) {
    && (!IsTruthyReal(minValue) || x >= minValue.value)
    && (!IsTruthyReal(maxValue) || x <= maxValue.value)
  }

  // ----- validate_int, validate_float -----

  /** `validate_int(value, min_value, max_value, options)`. */
  function ValidateInt<V>(value: V, toInt: V -> Option<int>, minValue: Option<int>,
                          maxValue: Option<int>, options: Option<seq<int>>): (r: Result<int, ErrorKind>)
    ensures BoundsConflict(minValue, maxValue) ==> r == Failure(ArgumentConflictError)
    ensures !BoundsConflict(minValue, maxValue) && toInt(value).None? ==> r == Failure(TypeError)
    ensures r.Success? <==>
      !BoundsConflict(minValue, maxValue) && toInt(value).Some?
      && Admissible(toInt(value).value, minValue, maxValue, options)
    ensures r.Success? ==> r.value == toInt(value).value
    ensures r.Failure? ==> r.error == ArgumentConflictError || r.error == TypeError || r.error == ValueError
  {
    if IsTruthy(minValue) && IsTruthy(maxValue) && minValue.value >= maxValue.value then
      Failure(ArgumentConflictError)
    else
      match toInt(value)
      case None => Failure(TypeError)
      case Some(x) =>
        if IsTruthy(minValue) && x < minValue.value then Failure(ValueError)
        else if IsTruthy(maxValue) && x > maxValue.value then Failure(ValueError)
        else if HasOptions(options) && x !in options.value then Failure(ValueError)
        else Success(x)
  }

  /** A bound of zero is never enforced: `validate_int(-5, min_value=0)` returns -5. */
  lemma ZeroBoundIsIgnored<V>(value: V, toInt: V -> Option<int>, x: int)
    requires toInt(value) == Some(x)
    ensures ValidateInt(value, toInt, Some(0), None, None) == Success(x)
    ensures ValidateInt(value, toInt, None, Some(0), None) == Success(x)
  {
  }

  /** `validate_float(value, min_value, max_value)` over mathematical reals. */
  function ValidateFloat<V>(value: V, toFloat: V -> Option<real>, minValue: Option<real>,
                            maxValue: Option<real>): (r: Result<real, ErrorKind>)
    ensures RealBoundsConflict(minValue, maxValue) ==> r == Failure(ArgumentConflictError)
    ensures !RealBoundsConflict(minValue, maxValue) && toFloat(value).None? ==> r == Failure(TypeError)
    ensures r.Success? <==>
      !RealBoundsConflict(minValue, maxValue) && toFloat(value).Some?
      && AdmissibleReal(toFloat(value).value, minValue, maxValue)
    ensures r.Success? ==> r.value == toFloat(value).value
    ensures r.Failure? ==> r.error == ArgumentConflictError || r.error == TypeError || r.error == ValueError
  {
    if IsTruthyReal(minValue) && IsTruthyReal(maxValue) && minValue.value >= maxValue.value then
      Failure(ArgumentConflictError)
    else
      match toFloat(value)
      case None => Failure(TypeError)
      case Some(x) =>
        if IsTruthyReal(minValue) && x < minValue.value then Failure(ValueError)
        else if IsTruthyReal(maxValue) && x > maxValue.value then Failure(ValueError)
        else Success(x)
  }

  // ----- validate_ints -----

  /** An argument to `validate_ints`: either `len()` works on it and iterating it
      gives `items`, or it is an unsized scalar. */
  datatype Values<V> = Sized(items: seq<V>) | Unsized(item: V)

  /** What the loop iterates over: an unsized scalar is wrapped into a one-element list. */
  function Elements<V>(values: Values<V>): (xs: seq<V>)
    ensures values.Unsized? ==> xs == [values.item]
    ensures values.Sized? ==> xs == values.items
  {
    match values
    case Sized(items) => items
    case Unsized(item) => [item]
  }

  /** `i` is the first element on which `validate_int` fails. */
  ghost predicate FirstFailure<V>(xs: seq<V>, i: int, toInt: V -> Option<int>, minValue: Option<int>,
                                  maxValue: Option<int>, options: Option<seq<int>>)
  {
    && 0 <= i < |xs|
    && ValidateInt(xs[i], toInt, minValue, maxValue, options).Failure?
    && forall j :: 0 <= j < i ==> ValidateInt(xs[j], toInt, minValue, maxValue, options).Success?
  }

  /** The element loop of `validate_ints`: validate each element in order, stopping at the first error. */
  function ValidateEach<V>(xs: seq<V>, toInt: V -> Option<int>, minValue: Option<int>,
                           maxValue: Option<int>, options: Option<seq<int>>): (r: Result<seq<int>, ErrorKind>)
    ensures r.Success? <==>
      forall i :: 0 <= i < |xs| ==> ValidateInt(xs[i], toInt, minValue, maxValue, options).Success?
    ensures r.Success? ==> |r.value| == |xs|
    ensures r.Success? ==>
      forall i :: 0 <= i < |xs| ==> r.value[i] == ValidateInt(xs[i], toInt, minValue, maxValue, options).value
    ensures r.Failure? ==>
      exists i :: FirstFailure(xs, i, toInt, minValue, maxValue, options)
        && r.error == ValidateInt(xs[i], toInt, minValue, maxValue, options).error
  {
    if xs == [] then Success([])
    else
      match ValidateInt(xs[0], toInt, minValue, maxValue, options)
      case Failure(e) =>
        assert FirstFailure(xs, 0, toInt, minValue, maxValue, options);
        Failure(e)
      case Success(x) =>
        match ValidateEach(xs[1..], toInt, minValue, maxValue, options)
        case Failure(e) =>
          ghost var i :| FirstFailure(xs[1..], i, toInt, minValue, maxValue, options)
            && e == ValidateInt(xs[1..][i], toInt, minValue, maxValue, options).error;
          assert FirstFailure(xs, i + 1, toInt, minValue, maxValue, options);
          Failure(e)
        case Success(rest) =>
          assert forall i :: 1 <= i < |xs| ==> xs[i] == xs[1..][i - 1];
          Success([x] + rest)
  }

  /** `validate_ints(values, length, min_value, max_value, options)`, as a value. */
  function ValidatedInts<V>(values: Values<V>, toInt: V -> Option<int>, length: Option<int>,
                            minValue: Option<int>, maxValue: Option<int>,
                            options: Option<seq<int>>): (r: Result<seq<int>, ErrorKind>)
    ensures BoundsConflict(minValue, maxValue) ==> r == Failure(ArgumentConflictError)
    // an element error takes precedence over the length check
    ensures !BoundsConflict(minValue, maxValue) ==>
      forall i :: FirstFailure(Elements(values), i, toInt, minValue, maxValue, options) ==>
        r == Failure(ValidateInt(Elements(values)[i], toInt, minValue, maxValue, options).error)
    ensures r.Success? ==>
      && |r.value| == |Elements(values)|
      && (!IsTruthy(length) || |r.value| == length.value)
      && forall i :: 0 <= i < |r.value| ==>
           toInt(Elements(values)[i]) == Some(r.value[i])
           && Admissible(r.value[i], minValue, maxValue, options)
    // the length is enforced only when it is truthy, and only after every element passed
    ensures
      (&& !BoundsConflict(minValue, maxValue)
       && (forall i :: 0 <= i < |Elements(values)| ==>
             ValidateInt(Elements(values)[i], toInt, minValue, maxValue, options).Success?))
      ==>
      (r.Success? <==> !IsTruthy(length) || |Elements(values)| == length.value)
      && (r.Failure? ==> r.error == ValueError)
  {
    if IsTruthy(minValue) && IsTruthy(maxValue) && minValue.value >= maxValue.value then
      Failure(ArgumentConflictError)
    else
      var xs := Elements(values);
      var each := ValidateEach(xs, toInt, minValue, maxValue, options);
      if each.Failure? then
        FirstFailureIsUnique(xs, toInt, minValue, maxValue, options);
        Failure(each.error)
      else if IsTruthy(length) && |each.value| != length.value then Failure(ValueError)
      else each
  }

  lemma FirstFailureIsUnique<V>(xs: seq<V>, toInt: V -> Option<int>, minValue: Option<int>,
                                maxValue: Option<int>, options: Option<seq<int>>)
    ensures forall i, j ::
      (FirstFailure(xs, i, toInt, minValue, maxValue, options)
       && FirstFailure(xs, j, toInt, minValue, maxValue, options)) ==> i == j
  {
  }

  /** The loop of `validate_ints`, appending one validated element per iteration. */
  method ValidateAll<V>(items: seq<V>, toInt: V -> Option<int>, minValue: Option<int>,
                        maxValue: Option<int>, options: Option<seq<int>>)
    returns (r: Result<seq<int>, ErrorKind>)
    ensures r == ValidateEach(items, toInt, minValue, maxValue, options)
  {
    var validated: seq<int> := [];
    var k := 0;
    while k < |items|
      invariant 0 <= k <= |items|
      invariant |validated| == k
      invariant forall i :: 0 <= i < k ==>
        ValidateInt(items[i], toInt, minValue, maxValue, options) == Success(validated[i])
    {
      var one := ValidateInt(items[k], toInt, minValue, maxValue, options);
      if one.Failure? {
        assert FirstFailure(items, k, toInt, minValue, maxValue, options);
        FirstFailureIsUnique(items, toInt, minValue, maxValue, options);
        return Failure(one.error);
      }
      validated := validated + [one.value];
      k := k + 1;
    }
    ghost var spec := ValidateEach(items, toInt, minValue, maxValue, options);
    assert spec.Success?;
    assert spec.value == validated;
    r := Success(validated);
  }

  /** `validate_ints(values, length, min_value, max_value, options)` */
  method ValidateInts<V>(values: Values<V>, toInt: V -> Option<int>, length: Option<int>,
                         minValue: Option<int>, maxValue: Option<int>,
                         options: Option<seq<int>>) returns (r: Result<seq<int>, ErrorKind>)
    ensures r == ValidatedInts(values, toInt, length, minValue, maxValue, options)
  {
    if IsTruthy(minValue) && IsTruthy(maxValue) && minValue.value >= maxValue.value {
      return Failure(ArgumentConflictError);
    }
    var items := match values case Sized(items) => items case Unsized(item) => [item];
    assert items == Elements(values);
    r := ValidateAll(items, toInt, minValue, maxValue, options);
    if r.Success? && IsTruthy(length) && |r.value| != length.value {
      r := Failure(ValueError);
    }
  }

  // ----- validate_str -----

  /** `str(option)` for every option, or `None` when one of them raises. */
  function CastAll<V>(options: seq<V>, toStr: V -> Option<string>): (r: Option<seq<string>>)
    ensures r.Some? <==> forall i :: 0 <= i < |options| ==> toStr(options[i]).Some?
    ensures r.Some? ==>
      && |r.value| == |options|
      && forall i :: 0 <= i < |options| ==> r.value[i] == toStr(options[i]).value
  {
    if options == [] then Some([])
    else
      match CastAll(options[..|options| - 1], toStr)
      case None => None
      case Some(init) =>
        match toStr(options[|options| - 1])
        case None => None
        case Some(s) => Some(init + [s])
  }

  /** The dictionary `case_insensitive_options`: each option stored under its
      lowercase form, later options overwriting earlier ones. */
  function OptionMap(strs: seq<string>): map<string, string> {
    if strs == [] then map[]
    else OptionMap(strs[..|strs| - 1])[Lower(strs[|strs| - 1]) := strs[|strs| - 1]]
  }

  /** `j` is the last option whose lowercase form is `key`. */
  ghost predicate LastWithKey(strs: seq<string>, j: int, key: string) {
    0 <= j < |strs| && Lower(strs[j]) == key
    && forall k :: j < k < |strs| ==> Lower(strs[k]) != key
  }

  /** The keys are the lowercase options, and each maps to the last option with that lowercase form. */
  lemma {:induction false} OptionMapLastWins(strs: seq<string>, key: string)
    ensures key in OptionMap(strs) <==> exists j :: 0 <= j < |strs| && Lower(strs[j]) == key
    ensures key in OptionMap(strs) ==>
      exists j :: LastWithKey(strs, j, key) && OptionMap(strs)[key] == strs[j]
  {
    if strs != [] {
      var n := |strs| - 1;
      var init := strs[..n];
      OptionMapLastWins(init, key);
      assert forall j :: 0 <= j < n ==> init[j] == strs[j];
      if Lower(strs[n]) == key {
        assert LastWithKey(strs, n, key);
      } else if key in OptionMap(init) {
        var j :| LastWithKey(init, j, key) && OptionMap(init)[key] == init[j];
        assert LastWithKey(strs, j, key);
      }
    }
  }

  /** `validate_str(value, options)`, as a value. */
  function ValidatedStr<V>(value: V, options: seq<V>, toStr: V -> Option<string>): (r: Result<string, ErrorKind>)
    ensures (exists i :: 0 <= i < |options| && toStr(options[i]).None?) ==> r == Failure(ArgumentConflictError)
    ensures (forall i :: 0 <= i < |options| ==> toStr(options[i]).Some?) && toStr(value).None? ==>
      r == Failure(TypeError)
    ensures r.Success? ==>
      toStr(value).Some?
      && exists j :: LastWithKey(CastAll(options, toStr).value, j, Lower(toStr(value).value))
                     && r.value == toStr(options[j]).value
    ensures r == Failure(ValueError) <==>
      (forall i :: 0 <= i < |options| ==> toStr(options[i]).Some?)
      && toStr(value).Some?
      && forall i :: 0 <= i < |options| ==> Lower(toStr(options[i]).value) != Lower(toStr(value).value)
  {
    match CastAll(options, toStr)
    case None => Failure(ArgumentConflictError)
    case Some(strs) =>
      match toStr(value)
      case None => Failure(TypeError)
      case Some(s) =>
        var key := Lower(s);
        OptionMapLastWins(strs, key);
        if key in OptionMap(strs) then Success(OptionMap(strs)[key]) else Failure(ValueError)
  }

  /** The loop of `validate_str`, filling the case-insensitive dictionary one
      option at a time; `None` when `str(option)` raises for some option. */
  method CaseInsensitiveOptions<V>(options: seq<V>, toStr: V -> Option<string>)
    returns (r: Option<map<string, string>>)
    ensures r.None? <==> CastAll(options, toStr).None?
    ensures r.Some? ==> r.value == OptionMap(CastAll(options, toStr).value)
  {
    var caseInsensitive: map<string, string> := map[];
    ghost var strs: seq<string> := [];
    var k := 0;
    while k < |options|
      invariant 0 <= k <= |options| && |strs| == k
      invariant forall i :: 0 <= i < k ==> toStr(options[i]) == Some(strs[i])
      invariant caseInsensitive == OptionMap(strs)
    {
      var option := toStr(options[k]);
      if option.None? {
        return None;
      }
      caseInsensitive := caseInsensitive[Lower(option.value) := option.value];
      OptionMapStep(strs, option.value);
      strs := strs + [option.value];
      k := k + 1;
    }
    assert CastAll(options, toStr).value == strs;
    r := Some(caseInsensitive);
  }

  /** Filing one more option into the dictionary. */
  lemma OptionMapStep(strs: seq<string>, s: string)
    ensures OptionMap(strs + [s]) == OptionMap(strs)[Lower(s) := s]
  {
    assert (strs + [s])[..|strs|] == strs;
  }

  /** `validate_str(value, options)`: the dictionary, then the lookup of the lowercased value. */
  method ValidateStr<V>(value: V, options: seq<V>, toStr: V -> Option<string>) returns (r: Result<string, ErrorKind>)
    ensures r == ValidatedStr(value, options, toStr)
  {
    var caseInsensitive := CaseInsensitiveOptions(options, toStr);
    if caseInsensitive.None? {
      return Failure(ArgumentConflictError);
    }
    var s := toStr(value);
    if s.None? {
      return Failure(TypeError);
    }
    var key := Lower(s.value);
    if key !in caseInsensitive.value {
      return Failure(ValueError);
    }
    r := Success(caseInsensitive.value[key]);
  }

  // ----- path validators over an abstract filesystem -----

  /** `validate_input_file_path(path, strict)` on the resolved path. */
  function ValidateInputFilePath(fs: FileSystem<Path>, path: Path, strict: bool): (r: Result<Path, ErrorKind>)
    reads fs
    ensures r == Failure(NotAFileError) <==> fs.Exists(path) && !fs.IsFile(path)
    ensures r == Failure(FileNotFoundError) <==> !fs.Exists(path) && strict
    ensures r.Success? <==> fs.IsFile(path) || (!fs.Exists(path) && !strict)
    ensures r.Success? ==> r.value == path
  {
    if fs.Exists(path) then
      if !fs.IsFile(path) then Failure(NotAFileError) else Success(path)
    else if strict then Failure(FileNotFoundError)
    else Success(path)
  }

  /** `validate_input_directory_path(path, strict)` on the resolved path. */
  function ValidateInputDirectoryPath(fs: FileSystem<Path>, path: Path, strict: bool): (r: Result<Path, ErrorKind>)
    reads fs
    ensures r == Failure(NotADirectoryError) <==> fs.Exists(path) && !fs.IsDir(path)
    ensures r == Failure(DirectoryNotFoundError) <==> !fs.Exists(path) && strict
    ensures r.Success? <==> fs.IsDir(path) || (!fs.Exists(path) && !strict)
    ensures r.Success? ==> r.value == path
  {
    if fs.Exists(path) then
      if !fs.IsDir(path) then Failure(NotADirectoryError) else Success(path)
    else if strict then Failure(DirectoryNotFoundError)
    else Success(path)
  }

  /** The nearest ancestor of `p` (or `p` itself) that exists. */
  function NearestExisting(nodes: map<Path, Entry>, p: Path): (a: Option<Path>)
    ensures a.Some? ==> a.value in nodes && IsAncestorOrSelf(a.value, p)
  {
    if p in nodes then Some(p)
    else if p.Root? then None
    else NearestExisting(nodes, p.parent)
  }

  /** `Path(p).mkdir(parents=True)`: create `p` and its missing ancestors as directories. */
  function MakeDirs(nodes: map<Path, Entry>, p: Path): (r: Result<map<Path, Entry>, ErrorKind>)
    ensures p in nodes ==> r == Failure(FileExistsError)
    ensures r.Success? <==>
      p !in nodes && NearestExisting(nodes, p).Some? && nodes[NearestExisting(nodes, p).value].Directory?
    ensures r.Success? ==> p in r.value && r.value[p] == Directory
    ensures r.Success? ==> forall q :: q in nodes ==> q in r.value && r.value[q] == nodes[q]
    ensures r.Success? ==> forall q :: q in r.value && q !in nodes ==>
      r.value[q] == Directory && IsAncestorOrSelf(q, p)
    // every path from the nearest existing ancestor down to `p` is now a directory
    ensures r.Success? ==> forall q :: IsAncestorOrSelf(NearestExisting(nodes, p).value, q) && IsAncestorOrSelf(q, p) ==>
      q in r.value && r.value[q] == Directory
    ensures r.Failure? ==> r.error == FileExistsError || r.error == FileNotFoundError || r.error == NotADirectoryError
  {
    if p in nodes then Failure(FileExistsError)
    else if p.Root? then Failure(FileNotFoundError)
    else if p.parent in nodes then
      if nodes[p.parent].Directory? then
        ParentIsNextAncestor(p.parent, p);
        Success(nodes[p := Directory])
      else Failure(NotADirectoryError)
    else
      match MakeDirs(nodes, p.parent)
      case Failure(e) => Failure(e)
      case Success(m) => Success(m[p := Directory])
  }

  /** Between `p`'s parent and `p` there is no other path. */
  lemma ParentIsNextAncestor(a: Path, p: Path)
    requires p.Child? && a == p.parent
    ensures forall q :: IsAncestorOrSelf(a, q) && IsAncestorOrSelf(q, p) ==> q == p || q == a
  {
    forall q | IsAncestorOrSelf(a, q) && IsAncestorOrSelf(q, p) && q != p
      ensures q == a
    {
      AncestorAntisymmetric(a, q);
    }
  }

  /** `validate_output_file_path(path, strict, parents)` on the resolved path. */
  method ValidateOutputFilePath(fs: FileSystem<Path>, path: Path, strict: bool, parents: bool)
    returns (r: Result<Path, ErrorKind>)
    modifies fs
    // an existing output is refused when strict, before its kind is examined
    ensures old(fs.Exists(path)) && strict ==> r == Failure(FileExistsError) && fs.nodes == old(fs.nodes)
    ensures old(fs.Exists(path)) && !strict && !old(fs.IsFile(path)) ==>
      r == Failure(NotAFileError) && fs.nodes == old(fs.nodes)
    ensures (!old(fs.Exists(path)) || (!strict && old(fs.IsFile(path)))) ==>
      if old(fs.Exists(Parent(path))) then r == Success(path) && fs.nodes == old(fs.nodes)
      else if !parents then r == Failure(DirectoryNotFoundError) && fs.nodes == old(fs.nodes)
      else match MakeDirs(old(fs.nodes), Parent(path))
           case Success(m) => r == Success(path) && fs.nodes == m
           case Failure(e) => r == Failure(e) && fs.nodes == old(fs.nodes)
  {
    if path in fs.nodes {
      if strict {
        return Failure(FileExistsError);
      }
      if !fs.IsFile(path) {
        return Failure(NotAFileError);
      }
    }
    var parent := Parent(path);
    if parent !in fs.nodes {
      if !parents {
        return Failure(DirectoryNotFoundError);
      }
      var made := MakeDirs(fs.nodes, parent);
      if made.Failure? {
        return Failure(made.error);
      }
      fs.nodes := made.value;
    }
    r := Success(path);
  }

  /** `validate_output_directory_path(path)` on the resolved path. */
  method ValidateOutputDirectoryPath(fs: FileSystem<Path>, path: Path) returns (r: Result<Path, ErrorKind>)
    modifies fs
    ensures old(fs.IsDir(path)) ==> r == Success(path) && fs.nodes == old(fs.nodes)
    ensures old(fs.Exists(path)) && !old(fs.IsDir(path)) ==>
      r == Failure(NotADirectoryError) && fs.nodes == old(fs.nodes)
    ensures !old(fs.Exists(path)) ==>
      match MakeDirs(old(fs.nodes), path)
      case Success(m) => r == Success(path) && fs.nodes == m && fs.IsDir(path)
      case Failure(e) => r == Failure(e) && fs.nodes == old(fs.nodes)
    // a created directory comes with every missing ancestor, as directories
    ensures !old(fs.Exists(path)) && r.Success? ==>
      && NearestExisting(old(fs.nodes), path).Some?
      && forall q :: IsAncestorOrSelf(NearestExisting(old(fs.nodes), path).value, q) && IsAncestorOrSelf(q, path) ==>
           fs.IsDir(q)
  {
    if path in fs.nodes {
      if !fs.IsDir(path) {
        return Failure(NotADirectoryError);
      }
    } else {
      var made := MakeDirs(fs.nodes, path);
      if made.Failure? {
        return Failure(made.error);
      }
      fs.nodes := made.value;
    }
    r := Success(path);
  }
}
