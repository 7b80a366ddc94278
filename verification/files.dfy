/** The host filesystem as the plugin sees it: a map from path strings to
    entries, plus the set of entries that cannot be read, written or
    removed, and the clock value a fresh write stamps. Paths are taken in
    normal form (no `.`/`..` segments, no duplicate or trailing
    separators); an entry's parent directory is not required to exist. */
module Files {
  import opened Wrappers
  import opened JavaLang

  type Path = string

  datatype Kind = RegularFile | Directory

  /** One filesystem entry: its kind, last-modified time, content and
      whether it may be executed. */
  datatype Node = Node(kind: Kind, mtime: int, data: seq<bv8>, executable: bool)

  type Tree = map<Path, Node>

  /** The java.nio exceptions the modelled operations can raise. */
  datatype IOError =
    | NoSuchFile(path: Path)
    | AccessDenied(path: Path)
    | AlreadyExists(path: Path)

  /** `new File(dir, name)`. */
  function Child(dir: Path, sep: char, name: string): (r: Path)
    ensures Within(r, dir, sep) && r[|dir| + 1..] == name
  {
    dir + [sep] + name
  }

  /** File.getName: the text after the last separator. */
  function FileName(p: Path, sep: char): (r: string)
    ensures sep !in r && EndsWith(p, r)
  {
    var i := LastIndexOf(p, sep);
    assert p[|p| - |p[i + 1..]|..] == p[i + 1..];
    p[i + 1..]
  }

  /** The name of a child is the name it was created with. */
  lemma FileNameOfChild(dir: Path, sep: char, name: string)
    requires sep !in name
    ensures FileName(Child(dir, sep, name), sep) == name
  {
    var c := Child(dir, sep, name);
    assert c[|dir|] == sep;
    assert c[|dir| + 1..] == name;
  }

  /** `p` lies strictly below `root`. */
  predicate Within(p: Path, root: Path, sep: char) {
    StartsWith(p, root + [sep])
  }

  /** `p` is `root` or lies below it. */
  predicate Covers(root: Path, p: Path, sep: char) {
    p == root || Within(p, root, sep)
  }

  /** `to.resolve(from.relativize(p))`: the path at the same place below
      `to` as `p` is below `from`. */
  function Rebase(p: Path, from: Path, to: Path): (r: Path)
    requires |from| <= |p|
    ensures |r| == |to| + |p| - |from|
  {
    to + p[|from|..]
  }

  /** `root.relativize(p).toString()` for a path below `root`. */
  function Relative(p: Path, root: Path, sep: char): string
    requires Within(p, root, sep)
  {
    p[|root| + 1..]
  }

  predicate IsFile(t: Tree, p: Path) {
    p in t && t[p].kind == RegularFile
  }

  predicate IsDirectory(t: Tree, p: Path) {
    p in t && t[p].kind == Directory
  }

  /** File.lastModified: 0 for an entry that does not exist. */
  function LastModified(t: Tree, p: Path): (r: int)
    ensures p in t ==> r == t[p].mtime
    ensures p !in t ==> r == 0
  {
    if p in t then t[p].mtime else 0
  }

  /** The content `new FileInputStream(p)` delivers, or the exception
      opening it raises: a directory or a missing entry cannot be opened,
      nor can an inaccessible one. */
  function ReadBytes(t: Tree, denied: set<Path>, p: Path): (r: Result<seq<bv8>, IOError>)
    ensures r.Success? <==> IsFile(t, p) && p !in denied
    ensures r.Success? ==> r.value == t[p].data
  {
    if !IsFile(t, p) then Failure(NoSuchFile(p))
    else if p in denied then Failure(AccessDenied(p))
    else Success(t[p].data)
  }

  /** The entry `Files.copy(source, target, options)` writes at the target,
      or the exception it raises. The copy is stamped with the clock
      unless `attributes` (COPY_ATTRIBUTES) is given; an existing target
      is an error unless `replace` (REPLACE_EXISTING) is given. */
  function CopyNode(t: Tree, denied: set<Path>, now: int, source: Path, target: Path,
                    replace: bool, attributes: bool): (r: Result<Node, IOError>)
    ensures r.Success? <==>
      source in t && source !in denied && (target !in t || replace) && target !in denied
    ensures r.Success? ==> r.value.kind == t[source].kind && r.value.data == t[source].data
    ensures r.Success? ==> r.value.mtime == (if attributes then t[source].mtime else now)
  {
    if source !in t then Failure(NoSuchFile(source))
    else if source in denied then Failure(AccessDenied(source))
    else if target in t && !replace then Failure(AlreadyExists(target))
    else if target in denied then Failure(AccessDenied(target))
    else
      var n := t[source];
      Success(n.(mtime := if attributes then n.mtime else now))
  }

  /** The entry `Files.createDirectories(p)` leaves at `p`: an existing
      directory is kept, anything else there is an error, and a new
      directory is stamped with the clock. */
  function DirectoryNode(t: Tree, denied: set<Path>, now: int, p: Path): (r: Result<Node, IOError>)
    ensures r.Success? <==> IsDirectory(t, p) || (p !in t && p !in denied)
    ensures r.Success? ==> r.value.kind == Directory
    ensures IsDirectory(t, p) ==> r == Success(t[p])
  {
    if p in t then
      if t[p].kind == Directory then Success(t[p]) else Failure(AlreadyExists(p))
    else if p in denied then Failure(AccessDenied(p))
    else Success(Node(Directory, now, [], false))
  }

  /** Every entry at or below `root`. */
  function Subtree(t: Tree, root: Path, sep: char): (r: set<Path>)
    ensures forall p :: p in r <==> p in t && Covers(root, p, sep)
  {
    set p | p in t && Covers(root, p, sep)
  }

  /** File.getParentFile: the text before the last separator, or None for
      an entry directly below the filesystem root, which always exists. */
  function Parent(p: Path, sep: char): (r: Option<Path>)
    ensures r.Some? ==> Within(p, r.value, sep)
    ensures r.None? ==> forall i :: 0 < i < |p| ==> p[i] != sep
  {
    var i := LastIndexOf(p, sep);
    if i <= 0 then None
    else
      assert p[..i + 1] == p[..i] + [sep];
      Some(p[..i])
  }

  /** What File.mkdirs leaves: the tree and whether `dir` was made. */
  datatype Made = Made(tree: Tree, created: bool)

  /** File.mkdirs: an existing entry is left alone. Otherwise a missing
      parent is made first, recursively, and `dir` is made when its parent
      is then a directory and `dir` is accessible. Nothing is made below a
      regular file, and directories made on the way stay when a later one
      cannot be made. */
  function MadeDirs(t: Tree, denied: set<Path>, now: int, sep: char, dir: Path): (r: Made)
    ensures r.created <==> dir !in t && dir in r.tree
    ensures r.created ==> IsDirectory(r.tree, dir)
    ensures r.created && Parent(dir, sep).Some? ==> IsDirectory(r.tree, Parent(dir, sep).value)
    ensures forall p :: p in t ==> p in r.tree && r.tree[p] == t[p]
    ensures forall p :: p in r.tree && p !in t ==>
      r.tree[p] == Node(Directory, now, [], false) && p !in denied && Covers(p, dir, sep)
    decreases |dir|
  {
    if dir in t then Made(t, false)
    else
      var up := match Parent(dir, sep)
                case None => Made(t, true)
                case Some(par) =>
                  if par in t then Made(t, t[par].kind == Directory) else MadeDirs(t, denied, now, sep, par);
      assert forall p :: p in up.tree && p !in t ==> Covers(p, dir, sep) by {
        if Parent(dir, sep).Some? {
          var par := Parent(dir, sep).value;
          forall p | p in up.tree && p !in t && p != par
            ensures Within(dir, p, sep)
          {
            assert StartsWith(par, p + [sep]);
            assert dir[..|p| + 1] == par[..|p| + 1];
          }
        }
      }
      if up.created && dir !in denied then Made(up.tree[dir := Node(Directory, now, [], false)], true)
      else Made(up.tree, false)
  }

  /** A regular file `a` above `dir` with nothing in between: File.mkdirs
      makes nothing and reports false. */
  lemma {:induction false} MkdirsBelowFile(t: Tree, denied: set<Path>, now: int, sep: char, dir: Path, a: Path)
    requires dir !in t && IsFile(t, a) && Within(dir, a, sep) && a != []
    requires forall q :: q in t && Within(dir, q, sep) ==> !Within(q, a, sep)
    ensures MadeDirs(t, denied, now, sep, dir) == Made(t, false)
    decreases |dir|
  {
    var i := LastIndexOf(dir, sep);
    assert dir[|a|] == sep by {
      assert dir[..|a| + 1] == a + [sep];
    }
    assert i >= |a|;
    var par := dir[..i];
    assert Parent(dir, sep) == Some(par);
    if i == |a| {
      assert par == dir[..|a| + 1][..|a|];
    } else {
      assert Within(par, a, sep) by {
        assert par[..|a| + 1] == dir[..|a| + 1];
      }
      forall q | q in t && Within(par, q, sep)
        ensures !Within(q, a, sep)
      {
        assert Within(dir, q, sep) by {
          assert dir[..|q| + 1] == par[..|q| + 1];
        }
      }
      MkdirsBelowFile(t, denied, now, sep, par, a);
    }
  }

  /** Where nothing on the way to `dir` exists and nothing on it is
      inaccessible, File.mkdirs makes `dir` and every directory above it. */
  lemma {:induction false} MkdirsMakesChain(t: Tree, denied: set<Path>, now: int, sep: char, dir: Path)
    requires forall q :: q in t ==> !StartsWith(dir, q)
    requires forall q :: q in denied ==> !StartsWith(dir, q)
    ensures var r := MadeDirs(t, denied, now, sep, dir);
      r.created && forall i :: 0 < i < |dir| && dir[i] == sep ==> IsDirectory(r.tree, dir[..i])
    decreases |dir|
  {
    assert StartsWith(dir, dir);
    var r := MadeDirs(t, denied, now, sep, dir);
    match Parent(dir, sep)
    case None =>
    case Some(par) =>
      SeparatorsAbove(dir, sep, par);
      MkdirsMakesChain(t, denied, now, sep, par);
      var up := MadeDirs(t, denied, now, sep, par);
      assert r.tree == up.tree[dir := Node(Directory, now, [], false)];
      forall i | 0 < i < |dir| && dir[i] == sep
        ensures IsDirectory(r.tree, dir[..i])
      {
        if i < |par| {
          assert IsDirectory(up.tree, par[..i]);
        }
      }
  }

  /** Each separator of a path sits in its parent, or ends the parent. */
  lemma SeparatorsAbove(dir: Path, sep: char, par: Path)
    requires Parent(dir, sep) == Some(par)
    ensures |par| < |dir| && par == dir[..|par|]
    ensures forall q :: StartsWith(par, q) ==> StartsWith(dir, q)
    ensures forall i :: 0 < i < |dir| && dir[i] == sep ==>
      i <= |par| && (i < |par| ==> par[i] == sep && par[..i] == dir[..i]) && (i == |par| ==> dir[..i] == par)
  {
    NotInSuffix(dir, sep, |par| + 1);
    forall q | StartsWith(par, q)
      ensures StartsWith(dir, q)
    {
      assert dir[..|q|] == par[..|q|];
    }
  }

  /** The host filesystem. `tree` changes as the plugin copies, creates and
      deletes; which entries are inaccessible, the clock and the name
      separator do not. */
  class FileSystem {
    var tree: Tree
    const denied: set<Path>
    const now: int
    const sep: char

    constructor (tree0: Tree, denied0: set<Path>, now0: int, sep0: char)
      ensures tree == tree0 && denied == denied0 && now == now0 && sep == sep0
    {
      tree := tree0;
      denied := denied0;
      now := now0;
      sep := sep0;
    }

    predicate Exists(p: Path)
      reads this
    {
      p in tree
    }

    /** Files.copy with the given options. */
    method Copy(source: Path, target: Path, replace: bool, attributes: bool) returns (r: Outcome<IOError>)
      modifies this
      ensures var c := CopyNode(old(tree), denied, now, source, target, replace, attributes);
        (r.Pass? <==> c.Success?) &&
        tree == (if c.Success? then old(tree)[target := c.value] else old(tree))
    {
      var c := CopyNode(tree, denied, now, source, target, replace, attributes);
      if c.Success? {
        tree := tree[target := c.value];
        r := Pass;
      } else {
        r := Fail(c.error);
      }
    }

    /** Files.createDirectories, for the path itself. */
    method CreateDirectories(p: Path) returns (r: Outcome<IOError>)
      modifies this
      ensures var c := DirectoryNode(old(tree), denied, now, p);
        (r.Pass? <==> c.Success?) &&
        tree == (if c.Success? then old(tree)[p := c.value] else old(tree))
    {
      var c := DirectoryNode(tree, denied, now, p);
      if c.Success? {
        tree := tree[p := c.value];
        r := Pass;
      } else {
        r := Fail(c.error);
      }
    }

    /** File.mkdirs: makes a missing directory and its missing parents and
        reports whether it made the directory. */
    method Mkdirs(p: Path) returns (created: bool)
      modifies this
      ensures Made(tree, created) == MadeDirs(old(tree), denied, now, sep, p)
    {
      var m := MadeDirs(tree, denied, now, sep, p);
      tree := m.tree;
      created := m.created;
    }

    /** File.delete: removes an accessible entry with nothing below it and
        reports whether it did. */
    method Delete(p: Path) returns (deleted: bool)
      modifies this
      ensures deleted <==>
        p in old(tree) && p !in denied && forall q :: q in old(tree) ==> !Within(q, p, sep)
      ensures tree == (if deleted then old(tree) - {p} else old(tree))
    {
      deleted := p in tree && p !in denied && forall q :: q in tree ==> !Within(q, p, sep);
      if deleted {
        tree := tree - {p};
      }
    }
  }
}
