/**
 * The string-path helpers of files.py: `get_ext`, `get_name` and
 * `rename_preexisting_outfile`, over POSIX `os.path` semantics.
 */
module Files {
  import opened Wrappers
  import opened Text
  import opened FileSystems

  predicate AllChar(s: string, c: char) {
    forall i :: 0 <= i < |s| ==> s[i] == c
  }

  /** `posixpath.isabs` */
  predicate IsAbs(p: string) {
    |p| > 0 && p[0] == '/'
  }

  /** `posixpath.basename`: everything after the last slash. */
  function Basename(p: string): (r: string)
    ensures '/' !in r
  {
    p[RFind(p, '/') + 1..]
  }

  /** `posixpath.dirname`: everything up to the last slash, with trailing slashes
      removed unless the head is slashes only. */
  function Dirname(p: string): (r: string)
    ensures |r| <= |p| && r == p[..|r|]
    ensures r == "" || AllChar(r, '/') || r[|r| - 1] != '/'
  {
    var head := p[..RFind(p, '/') + 1];
    if head != "" && !AllChar(head, '/') then RStrip(head, '/') else head
  }

  /** `posixpath.join(a, b)` for two components. */
  function Join(a: string, b: string): (r: string)
    ensures IsAbs(b) ==> r == b
    ensures !IsAbs(b) ==> EndsWith(r, b) && |r| <= |a| + 1 + |b|
  {
    if IsAbs(b) then b
    else if a == "" || a[|a| - 1] == '/' then a + b
    else a + "/" + b
  }

  /** Joining a name to a directory as `Dirname` returns it can be undone by
      `Dirname` and `Basename`. */
  lemma SplitJoin(d: string, b: string)
    requires b != "" && '/' !in b
    requires d == "" || AllChar(d, '/') || d[|d| - 1] != '/'
    ensures Basename(Join(d, b)) == b
    ensures Dirname(Join(d, b)) == d
  {
    var p := Join(d, b);
    var k := |p| - |b|;
    assert p[k..] == b;
    if d == "" {
      assert p == b;
      assert RFind(p, '/') == -1;
    } else {
      assert p[k - 1] == '/';
      assert RFind(p, '/') == k - 1;
      var head := p[..k];
      if d[|d| - 1] == '/' {
        assert head == d;
      } else {
        assert head == d + "/";
        assert head[|d| - 1] == d[|d| - 1];
        assert RStrip(head[..|head| - 1], '/') == d;
      }
    }
  }

  /** Where `posixpath.splitext` cuts: the last dot of the last component, unless
      everything before that dot in the component is dots; -1 for no cut. */
  function ExtStart(p: string): (i: int)
    ensures -1 <= i < |p|
    ensures i >= 0 ==> p[i] == '.' && forall j :: i < j < |p| ==> p[j] != '.' && p[j] != '/'
  {
    var sep := RFind(p, '/');
    var dot := RFind(p, '.');
    if dot > sep && !AllChar(p[sep + 1..dot], '.') then dot else -1
  }

  /** `posixpath.splitext` */
  function SplitExt(p: string): (r: (string, string))
    ensures r.1 != "" ==> r.1[0] == '.' && forall j :: 1 <= j < |r.1| ==> r.1[j] != '.' && r.1[j] != '/'
  {
    var i := ExtStart(p);
    if i >= 0 then (p[..i], p[i..])
    else (p, "")
  }

  /** A dot of the last component of `p` that has something other than dots before
      it in that component. */
  predicate CuttableDot(p: string, j: int) {
    RFind(p, '/') < j < |p| && p[j] == '.' && !AllChar(p[RFind(p, '/') + 1..j], '.')
  }

  /** When `splitext` cuts: exactly when the last component has a dot with something
      other than dots before it, as in "b.txt" and unlike ".bashrc" or "b". */
  lemma SplitExtCutsIff(p: string)
    ensures SplitExt(p).1 != "" <==> exists j :: CuttableDot(p, j)
  {
    var sep := RFind(p, '/');
    var dot := RFind(p, '.');
    if ExtStart(p) >= 0 {
      assert CuttableDot(p, dot);
    } else {
      forall j ensures !CuttableDot(p, j) {
        NotCuttable(p, j);
      }
    }
  }

  lemma NotCuttable(p: string, j: int)
    requires ExtStart(p) == -1
    ensures !CuttableDot(p, j)
  {
    var sep := RFind(p, '/');
    var dot := RFind(p, '.');
    if sep < j < |p| && p[j] == '.' {
      assert j <= dot;
      assert AllChar(p[sep + 1..dot], '.');
      assert p[sep + 1..j] == p[sep + 1..dot][..j - sep - 1];
    }
  }

  /** A dotted file name has an extension: "b.txt" splits into "b" and ".txt". */
  lemma SplitExtOfDottedName(dir: string, stem: string, ext: string)
    requires '/' !in stem && '/' !in ext && '.' !in ext
    requires stem != "" && !AllChar(stem, '.')
    ensures SplitExt(dir + "/" + stem + "." + ext) == (dir + "/" + stem, "." + ext)
  {
    var p := dir + "/" + stem + "." + ext;
    var sep := |dir|;
    var dot := |dir| + 1 + |stem|;
    assert p[sep] == '/' && p[dot] == '.';
    assert forall j :: sep < j < |p| ==> p[j] != '/' by {
      forall j | sep < j < |p| ensures p[j] != '/' {
        if j < dot { assert p[j] == stem[j - sep - 1]; }
        else if j > dot { assert p[j] == ext[j - dot - 1]; }
      }
    }
    assert RFind(p, '/') == sep;
    assert forall j :: dot < j < |p| ==> p[j] != '.' by {
      forall j | dot < j < |p| ensures p[j] != '.' { assert p[j] == ext[j - dot - 1]; }
    }
    assert RFind(p, '.') == dot;
    assert p[sep + 1..dot] == stem;
    assert p[..dot] == dir + "/" + stem;
    assert p[dot..] == "." + ext;
  }

  /** `splitext` cuts a path in two: root followed by extension. */
  lemma SplitExtConcat(p: string)
    ensures SplitExt(p).0 + SplitExt(p).1 == p
  {
    var i := ExtStart(p);
    if i >= 0 {
      assert p[..i] + p[i..] == p;
    }
  }

  /** When `splitext` splits, the root's last component is not dots only. */
  lemma SplitExtRoot(p: string)
    requires SplitExt(p).1 != ""
    ensures !AllChar(Basename(SplitExt(p).0), '.')
  {
    var sep := RFind(p, '/');
    var dot := RFind(p, '.');
    assert ExtStart(p) == dot;
    RFindPrefix(p, '/', dot);
    assert Basename(p[..dot]) == p[sep + 1..dot];
  }

  /** Cutting a string after its last `c` keeps that last `c`. */
  lemma RFindPrefix(p: string, c: char, k: nat)
    requires RFind(p, c) < k <= |p|
    ensures RFind(p[..k], c) == RFind(p, c)
  {
    var q := p[..k];
    var i := RFind(p, c);
    assert forall j :: i < j < k ==> q[j] == p[j];
    if i >= 0 {
      assert q[i] == c;
    }
  }

  /** `s.lstrip(c)` */
  function LStrip(s: string, c: char): (r: string)
    ensures |r| <= |s|
    ensures r == [] || r[0] != c
  {
    if s != [] && s[0] == c then LStrip(s[1..], c) else s
  }

  /** `lstrip` keeps a suffix: only leading `c`s are removed. */
  lemma {:induction false} LStripIsSuffix(s: string, c: char)
    ensures LStrip(s, c) == s[|s| - |LStrip(s, c)|..]
    ensures forall i :: 0 <= i < |s| - |LStrip(s, c)| ==> s[i] == c
  {
    if s != [] && s[0] == c {
      LStripIsSuffix(s[1..], c);
    }
  }

  /** `s.strip(c)` */
  function Strip(s: string, c: char): (r: string)
    ensures |r| <= |s|
  {
    LStrip(RStrip(s, c), c)
  }

  /** `get_ext(filename)`: the extension of the basename, without its dot. */
  function GetExt(filename: string): (r: string)
    ensures forall j :: 0 <= j < |r| ==> r[j] != '.' && r[j] != '/'
  {
    var ext := SplitExt(Basename(filename)).1;
    if ext == "" then
      assert Strip(ext, '.') == "";
      Strip(ext, '.')
    else
      StripExtension(ext);
      Strip(ext, '.')
  }

  /** `get_name(filename)`: the basename without its extension. */
  function GetName(filename: string): (r: string)
    ensures '/' !in r
  {
    SplitExt(Basename(filename)).0
  }

  /** Stripping the dots off an extension leaves what follows its one dot. */
  lemma StripExtension(ext: string)
    requires ext != "" && ext[0] == '.'
    requires forall j :: 1 <= j < |ext| ==> ext[j] != '.'
    ensures Strip(ext, '.') == ext[1..]
  {
    if |ext| == 1 {
      assert RStrip(ext, '.') == RStrip("", '.');
    } else {
      assert RStrip(ext, '.') == ext;
      assert LStrip(ext, '.') == LStrip(ext[1..], '.');
    }
  }

  /** Name and extension put the basename back together: with a dot in between when
      there is an extension, and otherwise the name is the whole basename. */
  lemma NameAndExt(filename: string)
    ensures var b := Basename(filename);
      if SplitExt(b).1 != ""
      then GetName(filename) + "." + GetExt(filename) == b
      else GetExt(filename) == "" && GetName(filename) == b
  {
    if SplitExt(Basename(filename)).1 != "" {
      NameDotExt(filename);
    } else {
      assert Strip("", '.') == "";
    }
  }

  lemma NameDotExt(filename: string)
    requires SplitExt(Basename(filename)).1 != ""
    ensures GetName(filename) + "." + GetExt(filename) == Basename(filename)
  {
    var parts := SplitExt(Basename(filename));
    var name, ext := parts.0, parts.1;
    StripExtension(ext);
    assert GetExt(filename) == ext[1..];
    assert ext == "." + ext[1..];
    assert name + "." + ext[1..] == name + ext;
  }

  /** `f"{filename}_{i:03d}.{extension}"` */
  function BackupName(name: string, ext: string, i: nat): (r: string)
    ensures r != "" && (('/' !in name && '/' !in ext) ==> '/' !in r)
  {
    name + "_" + Pad3(i) + "." + ext
  }

  /** `join(directory, f"{filename}_{backup_i:03d}.{extension}")` for the normalised `outfile`. */
  function BackupOutfile(outfile: string, i: nat): (r: string)
    ensures Basename(r) == BackupName(GetName(outfile), GetExt(outfile), i)
    ensures Dirname(r) == Dirname(outfile)
    ensures r != outfile
  {
    var b := BackupName(GetName(outfile), GetExt(outfile), i);
    SplitJoin(Dirname(outfile), b);
    NameAndExt(outfile);
    Join(Dirname(outfile), b)
  }

  /** Different indices give different backup names. */
  lemma BackupNameInjective(name: string, ext: string, i: nat, j: nat)
    requires BackupName(name, ext, i) == BackupName(name, ext, j)
    ensures i == j
  {
    assert BackupName(name, ext, i) == (name + "_") + Pad3(i) + ("." + ext);
    assert BackupName(name, ext, j) == (name + "_") + Pad3(j) + ("." + ext);
    SameFrame(name + "_", Pad3(i), Pad3(j), "." + ext);
    Pad3Injective(i, j);
  }

  /** Different indices give different backup paths. */
  lemma BackupOutfileInjective(outfile: string, i: nat, j: nat)
    requires BackupOutfile(outfile, i) == BackupOutfile(outfile, j)
    ensures i == j
  {
    BackupNameInjective(GetName(outfile), GetExt(outfile), i, j);
  }

  /** An extension-less file keeps its whole basename and gets a backup name
      ending in a dot: "/srv/data" backs up to "/srv/data_000.". */
  lemma NoExtensionBackup(outfile: string, i: nat)
    ensures SplitExt(Basename(outfile)).1 == "" ==>
      Basename(BackupOutfile(outfile, i)) == Basename(outfile) + "_" + Pad3(i) + "."
    ensures Dirname(BackupOutfile(outfile, i)) == Dirname(outfile)
  {
    NameAndExt(outfile);
    var b := Basename(outfile);
    assert BackupName(b, "", i) == b + "_" + Pad3(i) + "." + "";
  }

  /** `outfile` after `expandvars`, `join(getcwd(), ...)` for a relative path, and
      `normpath`; the three library calls are parameters. */
  function AbsoluteOutfile(outfile: string, cwd: string,
                           expandvars: string -> string, normpath: string -> string): (r: string)
    ensures var e := expandvars(outfile);
      && (IsAbs(e) ==> r == normpath(e))
      && (!IsAbs(e) ==> r == normpath(Join(cwd, e)))
  {
    var e := expandvars(outfile);
    normpath(if IsAbs(e) then e else Join(cwd, e))
  }

  /** A relative path is made absolute by the working directory, when that is absolute. */
  lemma AbsoluteBeforeNormalising(e: string, cwd: string)
    requires IsAbs(cwd)
    ensures IsAbs(if IsAbs(e) then e else Join(cwd, e))
  {
  }

  ghost predicate OutfileBackupsTaken(nodes: map<string, Entry>, outfile: string, i: nat) {
    forall j :: 0 <= j < i ==> BackupOutfile(outfile, j) in nodes
  }

  lemma OutfileBackupsTakenStep(nodes: map<string, Entry>, outfile: string, i: nat)
    requires OutfileBackupsTaken(nodes, outfile, i) && BackupOutfile(outfile, i) in nodes
    ensures OutfileBackupsTaken(nodes, outfile, i + 1)
  {
  }

  lemma FreshOutfileBackup(outfile: string, i: nat, tried: set<string>)
    requires forall q :: q in tried ==> exists j :: 0 <= j < i && BackupOutfile(outfile, j) == q
    ensures BackupOutfile(outfile, i) !in tried
  {
    forall q | q in tried ensures q != BackupOutfile(outfile, i) {
      var j :| 0 <= j < i && BackupOutfile(outfile, j) == q;
      if q == BackupOutfile(outfile, i) {
        BackupOutfileInjective(outfile, i, j);
      }
    }
  }

  /** The `while True` loop of `rename_preexisting_outfile`: move `o` to the first
      backup name that does not exist yet. */
  method MoveToFreeBackup(fs: FileSystem<string>, o: string) returns (i: nat)
    requires o in fs.nodes
    modifies fs
    ensures BackupOutfile(o, i) !in old(fs.nodes)
    ensures OutfileBackupsTaken(old(fs.nodes), o, i)
    ensures fs.nodes == (old(fs.nodes) - {o})[BackupOutfile(o, i) := old(fs.nodes)[o]]
  {
    i := 0;
    ghost var tried: set<string> := {};
    while true
      invariant fs.nodes == old(fs.nodes)
      invariant tried <= fs.nodes.Keys
      invariant OutfileBackupsTaken(fs.nodes, o, i)
      invariant forall q :: q in tried ==> exists j :: 0 <= j < i && BackupOutfile(o, j) == q
      decreases |fs.nodes.Keys - tried|
    {
      var backup := BackupOutfile(o, i);
      if backup !in fs.nodes {
        fs.Move(o, backup);
        return;
      }
      FreshOutfileBackup(o, i, tried);
      Shrinks(fs.nodes.Keys, tried, backup);
      OutfileBackupsTakenStep(fs.nodes, o, i);
      tried := tried + {backup};
      i := i + 1;
    }
  }

  /** `rename_preexisting_outfile(outfile)`: the result is the backup index used,
      or `None` when nothing existed at the normalised path. */
  method RenamePreexistingOutfile(fs: FileSystem<string>, outfile: string, cwd: string,
                                  expandvars: string -> string, normpath: string -> string)
    returns (r: Option<nat>)
    modifies fs
    ensures var o := AbsoluteOutfile(outfile, cwd, expandvars, normpath);
      && (o !in old(fs.nodes) ==> r == None && fs.nodes == old(fs.nodes))
      && (o in old(fs.nodes) ==>
        && r.Some?
        && var backup := BackupOutfile(o, r.value);
        && backup !in old(fs.nodes)
        && OutfileBackupsTaken(old(fs.nodes), o, r.value)
        && fs.nodes == (old(fs.nodes) - {o})[backup := old(fs.nodes)[o]])
  {
    var e := expandvars(outfile);
    if !IsAbs(e) {
      e := Join(cwd, e);
    }
    var o := normpath(e);
    if o !in fs.nodes {
      return None;
    }
    var i := MoveToFreeBackup(fs, o);
    r := Some(i);
  }
}
