/**
 * `rename_preexisting_output_path` (file.py): move an existing output file out
 * of the way, to the first free sibling `stem_NNN.suffix`.
 *
 * Paths are resolved `Path` values; the names follow pathlib's `stem`,
 * `suffix` and `with_stem`.
 */
module File {
  import opened Wrappers
  import opened Exceptions
  import opened Text
  import opened FileSystems

  /** `PurePath.suffix`: from the last dot on, unless that dot starts or ends the name. */
  function Suffix(name: string): (r: string)
    ensures |r| <= |name| && r == name[|name| - |r|..]
    ensures r != "" ==> 2 <= |r| < |name| && r[0] == '.' && forall j :: 1 <= j < |r| ==> r[j] != '.'
    ensures r == "" ==> name == "" || name[|name| - 1] == '.' || forall j :: 0 < j < |name| ==> name[j] != '.'
  {
    var i := RFind(name, '.');
    if 0 < i < |name| - 1 then name[i..] else ""
  }

  /** `PurePath.stem`: the name without its suffix. */
  function Stem(name: string): (r: string)
    ensures r + Suffix(name) == name
  {
    var i := RFind(name, '.');
    if 0 < i < |name| - 1 then name[..i] else name
  }

  /** The name `with_stem(f"{stem}_{i:03d}")` gives. */
  function BackupName(name: string, i: nat): (r: string)
    ensures r != name
  {
    Stem(name) + "_" + Pad3(i) + Suffix(name)
  }

  /** `output_path.with_stem(f"{output_path.stem}_{i:03d}")`; the root has an empty
      name, for which `with_stem` raises `ValueError`. */
  function BackupPath(p: Path, i: nat): (r: Result<Path, ErrorKind>)
    ensures r.Failure? <==> p.Root?
    ensures r.Failure? ==> r.error == ValueError
    ensures r.Success? ==> r.value.Child? && r.value.parent == p.parent && r.value != p
  {
    match p
    case Root => Failure(ValueError)
    case Child(parent, name) => Success(Child(parent, BackupName(name, i)))
  }

  /** Different indices give different backup names. */
  lemma BackupNameInjective(name: string, i: nat, j: nat)
    requires BackupName(name, i) == BackupName(name, j)
    ensures i == j
  {
    SameFrame(Stem(name) + "_", Pad3(i), Pad3(j), Suffix(name));
    Pad3Injective(i, j);
  }

  /** A backup keeps the suffix, and its stem is the old stem with the index appended. */
  lemma BackupKeepsSuffix(name: string, i: nat)
    requires Suffix(name) != ""
    ensures Suffix(BackupName(name, i)) == Suffix(name)
    ensures Stem(BackupName(name, i)) == Stem(name) + "_" + Pad3(i)
  {
    var suffix := Suffix(name);
    var front := Stem(name) + "_" + Pad3(i);
    var b := BackupName(name, i);
    var k := |front|;
    assert b == front + suffix;
    assert b[k] == '.';
    assert forall j :: k < j < |b| ==> b[j] == suffix[j - k];
    assert RFind(b, '.') == k;
  }

  /** Backups of different indices are different paths. */
  lemma BackupPathInjective(p: Path, i: nat, j: nat)
    requires p.Child? && BackupPath(p, i) == BackupPath(p, j)
    ensures i == j
  {
    BackupNameInjective(p.name, i, j);
  }

  /** Every backup index below `i` is taken in `nodes`. */
  ghost predicate BackupsTaken(nodes: map<Path, Entry>, p: Path, i: nat) {
    forall j :: 0 <= j < i ==> BackupPath(p, j).Success? && BackupPath(p, j).value in nodes
  }

  lemma BackupsTakenStep(nodes: map<Path, Entry>, p: Path, i: nat)
    requires BackupsTaken(nodes, p, i)
    requires BackupPath(p, i).Success? && BackupPath(p, i).value in nodes
    ensures BackupsTaken(nodes, p, i + 1)
  {
  }

  /** The backup for `i` is none of the backups for smaller indices. */
  lemma FreshBackup(p: Path, i: nat, tried: set<Path>)
    requires p.Child?
    requires forall q :: q in tried ==> exists j :: 0 <= j < i && BackupPath(p, j) == Success(q)
    ensures BackupPath(p, i).value !in tried
  {
    forall q | q in tried ensures q != BackupPath(p, i).value {
      var j :| 0 <= j < i && BackupPath(p, j) == Success(q);
      if q == BackupPath(p, i).value {
        BackupPathInjective(p, i, j);
      }
    }
  }

  /** `rename_preexisting_output_path(output_path)`, for a path already resolved.
      The result is the backup index used, or `None` when nothing existed. */
  method RenamePreexistingOutputPath(fs: FileSystem<Path>, outputPath: Path)
    returns (r: Result<Option<nat>, ErrorKind>)
    modifies fs
    ensures outputPath !in old(fs.nodes) ==> r == Success(None) && fs.nodes == old(fs.nodes)
    ensures outputPath in old(fs.nodes) && outputPath.Root? ==>
      r == Failure(ValueError) && fs.nodes == old(fs.nodes)
    ensures outputPath in old(fs.nodes) && outputPath.Child? ==>
      && r.Success? && r.value.Some?
      && var i := r.value.value;
      var backup := BackupPath(outputPath, i).value;
      // the smallest index whose backup is free ...
      && backup !in old(fs.nodes)
      && BackupsTaken(old(fs.nodes), outputPath, i)
      // ... receives the file, and nothing else changes
      && fs.nodes == (old(fs.nodes) - {outputPath})[backup := old(fs.nodes)[outputPath]]
  {
    if outputPath !in fs.nodes {
      return Success(None);
    }
    var i := 0;
    ghost var tried: set<Path> := {};
    while true
      invariant fs.nodes == old(fs.nodes)
      invariant tried <= fs.nodes.Keys
      invariant BackupsTaken(fs.nodes, outputPath, i)
      invariant forall q :: q in tried ==> exists j :: 0 <= j < i && BackupPath(outputPath, j) == Success(q)
      decreases |fs.nodes.Keys - tried|
    {
      var backup := BackupPath(outputPath, i);
      if backup.Failure? {
        return Failure(ValueError);
      }
      if backup.value !in fs.nodes {
        fs.Move(outputPath, backup.value);
        return Success(Some(i));
      }
      FreshBackup(outputPath, i, tried);
      Shrinks(fs.nodes.Keys, tried, backup.value);
      BackupsTakenStep(fs.nodes, outputPath, i);
      tried := tried + {backup.value};
      i := i + 1;
    }
  }
}
