/** What the plugin reads from the machine it runs on: system properties,
    environment variables, `os.name`, the separators, the working
    directory, the filesystem and the order in which File.listFiles
    returns each directory's entries. */
module Host {
  import opened Wrappers
  import opened JavaLang
  import opened Files
  import Utils

  datatype Host = Host(
    osName: string,
    sep: char,
    pathSep: char,
    props: map<string, string>,
    env: map<string, string>,
    cwd: Path,
    tree: Tree,
    listings: map<Path, seq<string>>)
  {
    /** System.getProperty: null when unset. */
    function Property(name: string): (r: Option<string>)
      ensures r.Some? <==> name in props
    {
      if name in props then Some(props[name]) else None
    }

    /** System.getenv: null when unset. */
    function Getenv(name: string): (r: Option<string>)
      ensures r.Some? <==> name in env
    {
      if name in env then Some(env[name]) else None
    }

    /** File.exists. */
    predicate Exists(p: Path) {
      p in tree
    }

    /** File.listFiles, as names: null for anything that cannot be listed. */
    function ListNames(dir: Path): (r: Option<seq<string>>)
      ensures r.Some? <==> dir in listings
    {
      if dir in listings then Some(listings[dir]) else None
    }

    /** The length of the root prefix java.io.File recognises: the
        separator on Unix, a drive letter, colon and separator on
        Windows. */
    function PrefixLength(p: Path): (r: nat)
      ensures r <= |p|
    {
      if Utils.IsWindows(osName) then
        if |p| >= 3 && p[1] == ':' && p[2] == sep then 3 else 0
      else if |p| >= 1 && p[0] == sep then 1 else 0
    }

    predicate IsAbsolute(p: Path) {
      PrefixLength(p) > 0
    }

    /** File.getAbsolutePath: a relative path is resolved against the
        working directory. */
    function AbsolutePath(p: Path): (r: Path)
      ensures IsAbsolute(p) ==> r == p
      ensures !IsAbsolute(p) ==> StartsWith(r, cwd) && EndsWith(r, p)
    {
      if IsAbsolute(p) then p
      else if EndsWith(cwd, [sep]) then cwd + p
      else cwd + [sep] + p
    }

    /** File.getParent: everything before the last separator, the root
        prefix itself for an entry directly below it, and null when there
        is no separator beyond the prefix. */
    function Parent(p: Path): (r: Option<Path>)
      ensures r.Some? ==> |r.value| < |p| && StartsWith(p, r.value)
      ensures r.None? <==> LastIndexOf(p, sep) < PrefixLength(p) && (PrefixLength(p) == 0 || |p| == PrefixLength(p))
    {
      var index := LastIndexOf(p, sep);
      var prefix := PrefixLength(p);
      if index < prefix then
        if prefix > 0 && |p| > prefix then Some(p[..prefix]) else None
      else Some(p[..index])
    }
  }

  /** The last separator of `dir/name` is the one before `name`. */
  lemma {:induction false} LastSeparatorOfChild(dir: Path, sep: char, name: string)
    requires sep !in name
    ensures LastIndexOf(dir + [sep] + name, sep) == |dir|
    decreases |name|
  {
    var s := dir + [sep] + name;
    if |name| > 0 {
      assert s[..|s| - 1] == dir + [sep] + name[..|name| - 1];
      LastSeparatorOfChild(dir, sep, name[..|name| - 1]);
    }
  }

  /** File.getParent of `dir/name` is `dir`, for a single name and a
      directory at least as long as the root prefix. */
  lemma ParentOfChild(h: Host, dir: Path, name: string)
    requires h.sep !in name && |dir| > 0
    requires h.PrefixLength(dir + [h.sep] + name) <= |dir|
    ensures h.Parent(dir + [h.sep] + name) == Some(dir)
  {
    LastSeparatorOfChild(dir, h.sep, name);
    assert (dir + [h.sep] + name)[..|dir|] == dir;
  }
}

