/**
 * An abstract filesystem: a finite map from paths to entries.  It stands for
 * the operating system that validation.py, file.py and files.py query
 * (`exists`, `is_file`, `is_dir`) and change (`mkdir`, `move`, `rename`).
 * Each path is one entry; a directory does not carry its children.
 */
module FileSystems {

  /** What a path names: a regular file with its content, a directory, or anything else. */
  datatype Entry = RegularFile(data: seq<int>) | Directory | Special

  /** A resolved absolute path, as pathlib's `Path.resolve()` returns it. */
  datatype Path = Root | Child(parent: Path, name: string)

  /** `Path.parent`; the parent of the root is the root. */
  function Parent(p: Path): (q: Path)
    ensures p.Child? ==> q == p.parent
  {
    if p.Root? then Root else p.parent
  }

  /** `a` is `p` or one of `p`'s ancestors. */
  predicate IsAncestorOrSelf(a: Path, p: Path) {
    a == p || (p.Child? && IsAncestorOrSelf(a, p.parent))
  }

  /** The number of names in `p`. */
  function Depth(p: Path): nat {
    if p.Root? then 0 else 1 + Depth(p.parent)
  }

  /** An ancestor is never deeper than its descendant. */
  lemma {:induction false} AncestorIsShallower(a: Path, p: Path)
    requires IsAncestorOrSelf(a, p)
    ensures Depth(a) <= Depth(p)
    ensures Depth(a) == Depth(p) ==> a == p
  {
    if a != p {
      AncestorIsShallower(a, p.parent);
    }
  }

  /** Two paths that are each other's ancestors are the same path. */
  lemma AncestorAntisymmetric(a: Path, p: Path)
    requires IsAncestorOrSelf(a, p) && IsAncestorOrSelf(p, a)
    ensures a == p
  {
    AncestorIsShallower(a, p);
    AncestorIsShallower(p, a);
  }

  /** A search that marks one more existing path as tried leaves fewer untried
      paths: the measure of the backup-name loops. */
  lemma Shrinks<T>(keys: set<T>, tried: set<T>, x: T)
    requires x in keys && x !in tried
    ensures |keys - (tried + {x})| < |keys - tried|
  {
    var left := keys - tried;
    assert left == (left - {x}) + {x};
    assert keys - (tried + {x}) == left - {x};
  }

  class FileSystem<P(==)> {
    var nodes: map<P, Entry>

    constructor (nodes: map<P, Entry>)
      ensures this.nodes == nodes
    {
      this.nodes := nodes;
    }

    /** `exists(p)` */
    predicate Exists(p: P)
      reads this
    {
      p in nodes
    }

    /** `is_file(p)` / `isfile(p)` */
    predicate IsFile(p: P)
      reads this
    {
      p in nodes && nodes[p].RegularFile?
    }

    /** `is_dir(p)` / `isdir(p)` */
    predicate IsDir(p: P)
      reads this
    {
      p in nodes && nodes[p].Directory?
    }

    /** `shutil.move` / `os.rename` of an existing entry to `dst`. */
    method Move(src: P, dst: P)
      requires src in nodes
      modifies this
      ensures nodes == (old(nodes) - {src})[dst := old(nodes)[src]]
    {
      var entry := nodes[src];
      nodes := (nodes - {src})[dst := entry];
    }
  }
}
