/** com.excelsiorjet.Utils: host predicates over the `os.name` property,
    executable naming, and the incremental copy and clean walks over the
    filesystem. */
module Utils {
  import opened Wrappers
  import opened JavaLang
  import opened Files

  // ---------------------------------------------------------------------
  // Host predicates: substring tests on the os.name system property

  predicate IsWindows(osName: string) {
    Contains(osName, "Windows")
  }

  predicate IsLinux(osName: string) {
    Contains(osName, "Linux")
  }

  predicate IsOSX(osName: string) {
    Contains(osName, "OS X")
  }

  predicate IsUnix(osName: string) {
    IsLinux(osName) || IsOSX(osName)
  }

  /** The host names the plugin runs on are told apart as intended. */
  lemma WindowsHost()
    ensures IsWindows("Windows 10")
  {
    ContainsAt("Windows 10", "Windows", 0);
  }

  lemma WindowsNotLinux()
    ensures !IsLinux("Windows 10")
  {
    NotContainsShort("Windows 10", "Linux", 'L');
  }

  lemma WindowsNotOSX()
    ensures !IsOSX("Windows 10")
  {
    NotContainsShort("Windows 10", "OS X", 'O');
  }

  lemma LinuxHost()
    ensures IsLinux("Linux") && !IsWindows("Linux")
  {
    ContainsAt("Linux", "Linux", 0);
    NotContainsShort("Linux", "Windows", 'W');
  }

  lemma OSXHost()
    ensures IsOSX("Mac OS X") && !IsWindows("Mac OS X")
  {
    ContainsAt("Mac OS X", "OS X", 4);
    NotContainsShort("Mac OS X", "Windows", 'W');
  }

  /** Containment survives text added on either side. */
  lemma ContainsExtended(s: string, sub: string, before: string, after: string)
    requires Contains(s, sub)
    ensures Contains(before + s + after, sub)
  {
    var i := ContainsWitness(s, sub);
    var w := before + s + after;
    assert w[|before| + i..|before| + i + |sub|] == s[i..i + |sub|];
    ContainsAt(w, sub, |before| + i);
  }

  /** Each host test is a test for its word anywhere in `os.name`: a test
      that holds still holds whatever is written around the name, and a
      name is a Unix one exactly when it names Linux or OS X. */
  lemma HostTestsAreSubstringTests(osName: string, before: string, after: string)
    ensures IsWindows(osName) ==> IsWindows(before + osName + after)
    ensures IsLinux(osName) ==> IsLinux(before + osName + after)
    ensures IsOSX(osName) ==> IsOSX(before + osName + after)
    ensures IsUnix(osName) ==> IsUnix(before + osName + after)
    ensures IsUnix(osName) <==> IsLinux(osName) || IsOSX(osName)
  {
    if IsWindows(osName) {
      ContainsExtended(osName, "Windows", before, after);
    }
    if IsLinux(osName) {
      ContainsExtended(osName, "Linux", before, after);
    }
    if IsOSX(osName) {
      ContainsExtended(osName, "OS X", before, after);
    }
  }

  /** A string that lacks the first character of `sub` does not contain it. */
  lemma {:induction false} NotContainsShort(s: string, sub: string, c: char)
    requires |sub| > 0 && sub[0] == c && c !in s
    ensures !Contains(s, sub)
    decreases |s|
  {
    if |s| > 0 {
      assert s[0] != c;
      NotContainsShort(s[1..], sub, c);
    }
  }

  function ExeFileExtension(osName: string): (r: string)
    ensures IsWindows(osName) ==> r == ".exe"
    ensures !IsWindows(osName) ==> r == ""
  {
    if IsWindows(osName) then ".exe" else ""
  }

  /** The executable file name for `exe`: `exe` itself, followed by `.exe`
      on Windows. */
  function MangleExeName(osName: string, exe: string): (r: string)
    ensures StartsWith(r, exe)
    ensures |r| == |exe| + (if IsWindows(osName) then 4 else 0)
    ensures r[|exe|..] == ExeFileExtension(osName)
  {
    exe + ExeFileExtension(osName)
  }

  /** Distinct tool names give distinct executable names. */
  lemma MangleExeNameInjective(osName: string, a: string, b: string)
    requires MangleExeName(osName, a) == MangleExeName(osName, b)
    ensures a == b
  {
    assert a == MangleExeName(osName, a)[..|a|];
    assert b == MangleExeName(osName, b)[..|b|];
  }

  /** A null or zero-length string. */
  predicate IsEmpty(s: Option<string>) {
    s.None? || s.value == ""
  }

  // ---------------------------------------------------------------------
  // Incremental copy of one file

  /** The filesystem after an operation that writes `e` at `p`, if anything. */
  function Apply(t: Tree, p: Path, e: Option<Node>): (r: Tree)
    ensures e.Some? ==> p in r && r[p] == e.value
    ensures forall k :: k != p ==> (k in r <==> k in t) && (k in t ==> r[k] == t[k])
    ensures e.None? ==> r == t
  {
    if e.Some? then t[p := e.value] else t
  }

  /** What Utils.copyFile writes at `target` (None when it leaves the target
      alone), or the exception it raises. */
  function CopyFileEffect(t: Tree, denied: set<Path>, now: int, source: Path, target: Path)
    : (r: Result<Option<Node>, IOError>)
    // an existing target whose modification time matches is left alone
    ensures r == Success(None) <==> target in t && LastModified(t, source) == t[target].mtime
    // otherwise the source is copied with its attributes: an identical entry
    ensures r.Success? && r.value.Some? ==> source in t && r.value.value == t[source]
    // and the copy fails only when the source or the target is inaccessible
    ensures r.Failure? <==>
      (target !in t || LastModified(t, source) != t[target].mtime) &&
      (source !in t || source in denied || target in denied)
  {
    if target !in t || LastModified(t, source) != LastModified(t, target) then
      match CopyNode(t, denied, now, source, target, true, true)
      case Success(n) => Success(Some(n))
      case Failure(e) => Failure(e)
    else Success(None)
  }

  /** After a successful copyFile the two modification times agree. */
  lemma CopyFileSyncsTimes(t: Tree, denied: set<Path>, now: int, source: Path, target: Path)
    requires CopyFileEffect(t, denied, now, source, target).Success?
    ensures var t' := Apply(t, target, CopyFileEffect(t, denied, now, source, target).value);
      target in t' && t'[target].mtime == LastModified(t, source)
  {
  }

  /** A second copyFile of the same pair does nothing. */
  lemma CopyFileIdempotent(t: Tree, denied: set<Path>, now: int, source: Path, target: Path)
    requires CopyFileEffect(t, denied, now, source, target).Success?
    ensures var t' := Apply(t, target, CopyFileEffect(t, denied, now, source, target).value);
      CopyFileEffect(t', denied, now, source, target) == Success(None)
  {
    var e := CopyFileEffect(t, denied, now, source, target).value;
    var t' := Apply(t, target, e);
    CopyFileSyncsTimes(t, denied, now, source, target);
    assert LastModified(t', source) == LastModified(t, source) || source == target;
  }

  /** Utils.copyFile. */
  method CopyFile(fs: FileSystem, source: Path, target: Path) returns (r: Outcome<IOError>)
    modifies fs
    ensures var e := CopyFileEffect(old(fs.tree), fs.denied, fs.now, source, target);
      (r.Pass? <==> e.Success?) &&
      fs.tree == (if e.Success? then Apply(old(fs.tree), target, e.value) else old(fs.tree))
  {
    if !fs.Exists(target) {
      r := fs.Copy(source, target, false, true);
    } else if LastModified(fs.tree, source) != LastModified(fs.tree, target) {
      r := fs.Copy(source, target, true, true);
    } else {
      r := Pass;
    }
  }

  // ---------------------------------------------------------------------
  // Path arithmetic for walks

  lemma PrefixOfPrefix(k: string, a: string, b: string)
    requires StartsWith(k, a) && StartsWith(k, b) && |a| <= |b|
    ensures StartsWith(b, a)
  {
    assert b[..|a|] == k[..|b|][..|a|];
  }

  lemma SeparatedCovers(x: Path, y: Path, sep: char)
    requires StartsWith(x + [sep], y + [sep])
    ensures Covers(y, x, sep)
  {
    assert y == (y + [sep])[..|y|] == (x + [sep])[..|y|];
    if |y| == |x| {
      assert x == (x + [sep])[..|x|];
    } else {
      assert x[..|y| + 1] == (x + [sep])[..|y| + 1];
    }
  }

  /** Below-ness is transitive. */
  lemma CoversTrans(a: Path, b: Path, c: Path, sep: char)
    requires Covers(a, b, sep) && Covers(b, c, sep)
    ensures Covers(a, c, sep)
  {
    if b != a && c != b {
      assert c[..|a| + 1] == c[..|b| + 1][..|a| + 1];
      assert c[..|b| + 1][..|a| + 1] == b[..|a| + 1];
    }
  }

  /** Two paths at or below a common path are one at or below the other. */
  lemma CoversOverlap(source: Path, target: Path, k: Path, sep: char)
    requires Covers(source, k, sep) && Covers(target, k, sep)
    ensures Covers(source, target, sep) || Covers(target, source, sep)
  {
    if k != source && k != target {
      var a := source + [sep];
      var b := target + [sep];
      if |a| <= |b| {
        PrefixOfPrefix(k, a, b);
        SeparatedCovers(target, source, sep);
      } else {
        PrefixOfPrefix(k, b, a);
        SeparatedCovers(source, target, sep);
      }
    }
  }

  /** Two trees neither of which contains the other share no path. */
  lemma CoversDisjoint(source: Path, target: Path, k: Path, sep: char)
    requires !Covers(source, target, sep) && !Covers(target, source, sep)
    requires Covers(target, k, sep)
    ensures !Covers(source, k, sep)
  {
    if Covers(source, k, sep) {
      CoversOverlap(source, target, k, sep);
    }
  }

  /** Rebasing moves a path from below `source` to the same place below `target`. */
  lemma RebaseCovers(p: Path, source: Path, target: Path, sep: char)
    requires Covers(source, p, sep)
    ensures Covers(target, Rebase(p, source, target), sep)
    ensures Origin(Rebase(p, source, target), source, target) == p
  {
    var q := Rebase(p, source, target);
    assert q[|target|..] == p[|source|..];
    if p != source {
      assert p[..|source| + 1][|source|] == sep;
      assert q[..|target| + 1] == target + [sep];
    } else {
      assert p[|source|..] == [];
    }
    assert source + p[|source|..] == p;
  }

  /** The path below `source` that rebases to `k`. */
  function Origin(k: Path, source: Path, target: Path): Path {
    source + (if |target| <= |k| then k[|target|..] else "")
  }

  lemma RebaseInjective(source: Path, target: Path, sep: char)
    ensures forall p1, p2 {:trigger Rebase(p1, source, target), Rebase(p2, source, target)} ::
      (Covers(source, p1, sep) && Covers(source, p2, sep) &&
       Rebase(p1, source, target) == Rebase(p2, source, target)) ==> p1 == p2
  {
    forall p1, p2 | Covers(source, p1, sep) && Covers(source, p2, sep) &&
      Rebase(p1, source, target) == Rebase(p2, source, target)
      ensures p1 == p2
    {
      RebaseCovers(p1, source, target, sep);
      RebaseCovers(p2, source, target, sep);
    }
  }

  // ---------------------------------------------------------------------
  // Mirroring a directory tree (Utils.copyDirectory and the package-file
  // copy of the test run)

  /** A walk from `root` reaches `p`: `p` is the root, or it lies below a
      root directory and no unreadable entry on the way hides it. */
  predicate Reached(t: Tree, denied: set<Path>, root: Path, sep: char, p: Path) {
    p in t && root in t &&
    (p == root ||
     (t[root].kind == Directory && Within(p, root, sep) &&
      forall d :: d in denied && Within(p, d, sep) ==> !Covers(root, d, sep)))
  }

  function Walk(t: Tree, denied: set<Path>, root: Path, sep: char): (r: set<Path>)
    ensures forall p :: p in r ==> p in t && Covers(root, p, sep)
  {
    set p | p in t && Reached(t, denied, root, sep, p)
  }

  /** One visit of a mirroring walk at `p`, mirrored at `q`: a readable
      directory is recreated, an unreadable one is skipped or fails, and a
      file goes through copyFile. */
  function MirrorEffect(t: Tree, denied: set<Path>, now: int, p: Path, q: Path, skipUnreadable: bool)
    : Result<Option<Node>, IOError>
    requires p in t
  {
    if t[p].kind == Directory then
      if p in denied then
        if skipUnreadable then Success(None) else Failure(AccessDenied(p))
      else
        match DirectoryNode(t, denied, now, q)
        case Success(n) => Success(Some(n))
        case Failure(e) => Failure(e)
    else CopyFileEffect(t, denied, now, p, q)
  }

  /** A visit depends only on the visited entry and its mirror. */
  lemma MirrorEffectLocal(t1: Tree, t2: Tree, denied: set<Path>, now: int, p: Path, q: Path, skip: bool)
    requires p in t1 && Lookup(t1, p) == Lookup(t2, p) && Lookup(t1, q) == Lookup(t2, q)
    ensures p in t2
    ensures MirrorEffect(t1, denied, now, p, q, skip) == MirrorEffect(t2, denied, now, p, q, skip)
  {
  }

  function Lookup(t: Tree, k: Path): Option<Node> {
    if k in t then Some(t[k]) else None
  }

  /** The entry at `k` once each visit in `visited` has written its mirror;
      every visit reads the original filesystem `t`. */
  function MirrorAt(t: Tree, denied: set<Path>, now: int, source: Path, target: Path, sep: char,
                    skip: bool, visited: set<Path>, k: Path): Option<Node>
  {
    var p := Origin(k, source, target);
    if Covers(target, k, sep) && p in visited && p in t then
      match MirrorEffect(t, denied, now, p, k, skip)
      case Success(Some(n)) => Some(n)
      case _ => Lookup(t, k)
    else Lookup(t, k)
  }

  /** Every visit in `visited` succeeds on the original filesystem. */
  ghost predicate AllSucceed(t: Tree, denied: set<Path>, now: int, source: Path, target: Path, skip: bool,
                             visited: set<Path>) {
    forall p {:trigger p in visited} :: p in visited ==>
      p in t && |source| <= |p| && MirrorEffect(t, denied, now, p, Rebase(p, source, target), skip).Success?
  }

  /** Every visit of the walk succeeds. */
  ghost predicate MirrorSucceeds(t: Tree, denied: set<Path>, now: int, source: Path, target: Path, sep: char,
                                 skip: bool) {
    AllSucceed(t, denied, now, source, target, skip, Walk(t, denied, source, sep))
  }

  lemma RebaseOrigin(k: Path, source: Path, target: Path, sep: char)
    requires Covers(target, k, sep)
    ensures Rebase(Origin(k, source, target), source, target) == k
  {
    assert target + k[|target|..] == k;
  }

  /** Before a visit, neither the visited entry nor its mirror has been
      written. */
  lemma MirrorUntouched(t: Tree, denied: set<Path>, now: int, source: Path, target: Path, sep: char,
                        skip: bool, visited: set<Path>, p: Path)
    requires !Covers(source, target, sep) && !Covers(target, source, sep)
    requires Covers(source, p, sep) && p !in visited
    ensures MirrorAt(t, denied, now, source, target, sep, skip, visited, p) == Lookup(t, p)
    ensures var q := Rebase(p, source, target);
      Covers(target, q, sep) &&
      MirrorAt(t, denied, now, source, target, sep, skip, visited, q) == Lookup(t, q)
  {
    CoversDisjoint(target, source, p, sep);
    RebaseCovers(p, source, target, sep);
  }

  /** A successful visit of `p` writes its effect at the mirror and
      nowhere else. */
  lemma MirrorStep(t: Tree, cur: Tree, next: Tree, denied: set<Path>, now: int, source: Path, target: Path,
                   sep: char, skip: bool, visited: set<Path>, p: Path)
    requires Covers(source, p, sep) && p in t
    requires forall k :: Lookup(cur, k) == MirrorAt(t, denied, now, source, target, sep, skip, visited, k)
    requires var e := MirrorEffect(t, denied, now, p, Rebase(p, source, target), skip);
      e.Success? && next == Apply(cur, Rebase(p, source, target), e.value)
    ensures forall k :: Lookup(next, k) == MirrorAt(t, denied, now, source, target, sep, skip, visited + {p}, k)
  {
    var q := Rebase(p, source, target);
    RebaseCovers(p, source, target, sep);
    forall k
      ensures Lookup(next, k) == MirrorAt(t, denied, now, source, target, sep, skip, visited + {p}, k)
    {
      if k != q {
        assert Lookup(next, k) == Lookup(cur, k);
        if Covers(target, k, sep) && Origin(k, source, target) == p {
          RebaseOrigin(k, source, target, sep);
        }
      }
    }
  }

  /** `cur` is the original filesystem `t` with the mirror of every visit in
      `visited` written. */
  ghost predicate MirroredAll(cur: Tree, t: Tree, denied: set<Path>, now: int, source: Path, target: Path,
                        sep: char, skip: bool, visited: set<Path>) {
    forall k {:trigger Lookup(cur, k)} ::
      Lookup(cur, k) == MirrorAt(t, denied, now, source, target, sep, skip, visited, k)
  }

  /** One visit of the mirroring walk. */
  method MirrorOne(fs: FileSystem, ghost t: Tree, ghost done: set<Path>, p: Path, source: Path, target: Path,
                   skipUnreadable: bool) returns (r: Outcome<IOError>)
    requires !Covers(source, target, fs.sep) && !Covers(target, source, fs.sep)
    requires Covers(source, p, fs.sep) && p in t && p !in done
    requires MirroredAll(fs.tree, t, fs.denied, fs.now, source, target, fs.sep, skipUnreadable, done)
    modifies fs
    ensures r.Pass? <==> MirrorEffect(t, fs.denied, fs.now, p, Rebase(p, source, target), skipUnreadable).Success?
    ensures r.Pass? ==>
      MirroredAll(fs.tree, t, fs.denied, fs.now, source, target, fs.sep, skipUnreadable, done + {p})
    ensures r.Fail? ==> fs.tree == old(fs.tree)
  {
    var q := Rebase(p, source, target);
    MirrorUntouched(t, fs.denied, fs.now, source, target, fs.sep, skipUnreadable, done, p);
    assert Lookup(fs.tree, p) == Lookup(t, p);
    assert Lookup(fs.tree, q) == Lookup(t, q);
    MirrorEffectLocal(t, fs.tree, fs.denied, fs.now, p, q, skipUnreadable);
    ghost var cur := fs.tree;
    if fs.tree[p].kind == Directory && p in fs.denied {
      r := if skipUnreadable then Pass else Fail(AccessDenied(p));
    } else if fs.tree[p].kind == Directory {
      r := fs.CreateDirectories(q);
    } else {
      r := CopyFile(fs, p, q);
    }
    if r.Pass? {
      MirrorStep(t, cur, fs.tree, fs.denied, fs.now, source, target, fs.sep, skipUnreadable, done, p);
    }
  }

  /** Nothing outside the target tree is written. */
  lemma MirrorFrame(cur: Tree, t: Tree, denied: set<Path>, now: int, source: Path, target: Path,
                    sep: char, skip: bool, visited: set<Path>)
    requires MirroredAll(cur, t, denied, now, source, target, sep, skip, visited)
    ensures forall k :: !Covers(target, k, sep) ==> Lookup(cur, k) == Lookup(t, k)
  {
    forall k | !Covers(target, k, sep)
      ensures Lookup(cur, k) == Lookup(t, k)
    {
      assert Lookup(cur, k) == MirrorAt(t, denied, now, source, target, sep, skip, visited, k);
    }
  }

  /** Visits every path of `visits`, in an order left open, and stops at
      the first visit that fails. */
  method MirrorVisits(fs: FileSystem, visits: set<Path>, source: Path, target: Path, skipUnreadable: bool)
    returns (r: Outcome<IOError>)
    requires !Covers(source, target, fs.sep) && !Covers(target, source, fs.sep)
    requires forall x :: x in visits ==> x in fs.tree && Covers(source, x, fs.sep)
    modifies fs
    ensures r.Pass? <==> AllSucceed(old(fs.tree), fs.denied, fs.now, source, target, skipUnreadable, visits)
    ensures r.Pass? ==>
      MirroredAll(fs.tree, old(fs.tree), fs.denied, fs.now, source, target, fs.sep, skipUnreadable, visits)
    ensures forall k :: !Covers(target, k, fs.sep) ==> Lookup(fs.tree, k) == Lookup(old(fs.tree), k)
  {
    ghost var t := fs.tree;
    var todo := visits;
    ghost var done: set<Path> := {};
    while todo != {}
      invariant todo !! done && todo + done == visits
      invariant MirroredAll(fs.tree, t, fs.denied, fs.now, source, target, fs.sep, skipUnreadable, done)
      invariant AllSucceed(t, fs.denied, fs.now, source, target, skipUnreadable, done)
      decreases |todo|
    {
      var p :| p in todo;
      r := MirrorOne(fs, t, done, p, source, target, skipUnreadable);
      if r.Fail? {
        MirrorFrame(fs.tree, t, fs.denied, fs.now, source, target, fs.sep, skipUnreadable, done);
        return;
      }
      todo := todo - {p};
      done := done + {p};
    }
    MirrorFrame(fs.tree, t, fs.denied, fs.now, source, target, fs.sep, skipUnreadable, done);
    r := Pass;
  }

  /** Visits `source` and everything a walk reaches below it, mirroring
      each entry at the same place below `target`; unreadable directories
      are skipped when `skipUnreadable` holds and fail otherwise. The walk
      order is left open; every order gives the same result. */
  method MirrorDirectory(fs: FileSystem, source: Path, target: Path, skipUnreadable: bool)
    returns (r: Outcome<IOError>)
    requires !Covers(source, target, fs.sep) && !Covers(target, source, fs.sep)
    modifies fs
    ensures source !in old(fs.tree) ==>
      fs.tree == old(fs.tree) && (r.Pass? <==> skipUnreadable)
    ensures source in old(fs.tree) ==>
      (r.Pass? <==> MirrorSucceeds(old(fs.tree), fs.denied, fs.now, source, target, fs.sep, skipUnreadable))
    ensures r.Pass? ==> MirroredAll(fs.tree, old(fs.tree), fs.denied, fs.now, source, target, fs.sep,
                                    skipUnreadable, Walk(old(fs.tree), fs.denied, source, fs.sep))
    ensures forall k :: !Covers(target, k, fs.sep) ==> Lookup(fs.tree, k) == Lookup(old(fs.tree), k)
  {
    if !fs.Exists(source) {
      r := if skipUnreadable then Pass else Fail(NoSuchFile(source));
      return;
    }
    var visits := Walk(fs.tree, fs.denied, source, fs.sep);
    r := MirrorVisits(fs, visits, source, target, skipUnreadable);
  }

  /** Utils.copyDirectory: every directory the walk reaches is recreated
      and every file goes through copyFile; an unreadable directory or a
      failed copy raises an IOException. */
  method CopyDirectory(fs: FileSystem, source: Path, target: Path) returns (r: Outcome<IOError>)
    requires !Covers(source, target, fs.sep) && !Covers(target, source, fs.sep)
    modifies fs
    ensures source !in old(fs.tree) ==> r.Fail? && fs.tree == old(fs.tree)
    ensures source in old(fs.tree) ==>
      (r.Pass? <==> MirrorSucceeds(old(fs.tree), fs.denied, fs.now, source, target, fs.sep, false))
    ensures r.Pass? ==> MirroredAll(fs.tree, old(fs.tree), fs.denied, fs.now, source, target, fs.sep,
                                    false, Walk(old(fs.tree), fs.denied, source, fs.sep))
    ensures forall k :: !Covers(target, k, fs.sep) ==> Lookup(fs.tree, k) == Lookup(old(fs.tree), k)
  {
    r := MirrorDirectory(fs, source, target, false);
  }

  /** After a successful mirror, every entry the walk reached and read has
      its counterpart below the target: a directory as a directory, a file
      as an entry with the same modification time (a copy, or whatever was
      already there with that time). */
  lemma MirroredCopies(t: Tree, denied: set<Path>, now: int, source: Path, target: Path, sep: char,
                       skip: bool, p: Path)
    requires MirrorSucceeds(t, denied, now, source, target, sep, skip)
    requires p in Walk(t, denied, source, sep) && (p !in denied || t[p].kind == RegularFile)
    ensures var q := Rebase(p, source, target);
      var m := MirrorAt(t, denied, now, source, target, sep, skip, Walk(t, denied, source, sep), q);
      m.Some? &&
      (t[p].kind == Directory ==> m.value.kind == Directory) &&
      (t[p].kind == RegularFile ==> m.value.mtime == t[p].mtime)
  {
    var q := Rebase(p, source, target);
    RebaseCovers(p, source, target, sep);
  }

  /** Every entry a successful walk visits has its mirror in `cur`: a
      directory as a directory, a file with its modification time. */
  ghost predicate Mirrored(cur: Tree, t: Tree, denied: set<Path>, source: Path, target: Path, sep: char) {
    forall p :: p in Walk(t, denied, source, sep) && (p !in denied || t[p].kind == RegularFile) ==>
      var m := Lookup(cur, Rebase(p, source, target));
      m.Some? &&
      (t[p].kind == Directory ==> m.value.kind == Directory) &&
      (t[p].kind == RegularFile ==> m.value.mtime == t[p].mtime)
  }

  /** A successful mirroring walk leaves every visited entry mirrored. */
  lemma MirroredAllIsMirrored(cur: Tree, t: Tree, denied: set<Path>, now: int, source: Path, target: Path,
                              sep: char, skip: bool)
    requires MirrorSucceeds(t, denied, now, source, target, sep, skip)
    requires MirroredAll(cur, t, denied, now, source, target, sep, skip, Walk(t, denied, source, sep))
    ensures Mirrored(cur, t, denied, source, target, sep)
  {
    forall p | p in Walk(t, denied, source, sep) && (p !in denied || t[p].kind == RegularFile)
      ensures var m := Lookup(cur, Rebase(p, source, target));
        m.Some? &&
        (t[p].kind == Directory ==> m.value.kind == Directory) &&
        (t[p].kind == RegularFile ==> m.value.mtime == t[p].mtime)
    {
      MirroredCopies(t, denied, now, source, target, sep, skip, p);
      assert Lookup(cur, Rebase(p, source, target)) ==
        MirrorAt(t, denied, now, source, target, sep, skip, Walk(t, denied, source, sep), Rebase(p, source, target));
    }
  }

  /** Mirrors stay mirrored while entries are only added. */
  lemma MirroredGrows(cur: Tree, cur': Tree, t: Tree, denied: set<Path>, source: Path, target: Path, sep: char)
    requires Mirrored(cur, t, denied, source, target, sep)
    requires forall k :: k in cur ==> k in cur' && cur'[k] == cur[k]
    ensures Mirrored(cur', t, denied, source, target, sep)
  {
  }

  /** Mirroring again over an unchanged source writes nothing: every file
      copy of the second walk is a no-op. */
  lemma MirrorAgainIsNoOp(t: Tree, t': Tree, denied: set<Path>, now: int, source: Path, target: Path,
                          sep: char, skip: bool, p: Path)
    requires !Covers(source, target, sep) && !Covers(target, source, sep)
    requires MirrorSucceeds(t, denied, now, source, target, sep, skip)
    requires MirroredAll(t', t, denied, now, source, target, sep, skip, Walk(t, denied, source, sep))
    requires p in Walk(t, denied, source, sep) && t[p].kind == RegularFile
    ensures p in t' && t'[p] == t[p]
    ensures CopyFileEffect(t', denied, now, p, Rebase(p, source, target)) == Success(None)
  {
    var q := Rebase(p, source, target);
    CoversDisjoint(target, source, p, sep);
    assert Lookup(t', p) == Lookup(t, p);
    MirroredCopies(t, denied, now, source, target, sep, skip, p);
    assert Lookup(t', q) == MirrorAt(t, denied, now, source, target, sep, skip, Walk(t, denied, source, sep), q);
  }

  // ---------------------------------------------------------------------
  // Cleaning a directory tree

  /** The message of the IOException cleanDirectory raises. */
  const CleanDirectoryFailedKey: string := "Utils.CleanDirectory.Failed"

  lemma LongestExists(s: set<Path>) returns (m: Path)
    requires s != {}
    ensures m in s && forall x :: x in s ==> |x| <= |m|
    decreases |s|
  {
    var x :| x in s;
    if s == {x} {
      m := x;
    } else {
      var m' := LongestExists(s - {x});
      m := if |x| <= |m'| then m' else x;
    }
  }

  /** When the longest pending entry is visited, nothing below it remains. */
  lemma NothingBelowDeepest(t: Tree, removed: set<Path>, todo: set<Path>, root: Path, sep: char, p: Path)
    requires todo + removed == Subtree(t, root, sep)
    requires p in todo && forall x :: x in todo ==> |x| <= |p|
    ensures forall x :: x in t - removed ==> !Within(x, p, sep)
  {
    forall x | x in t - removed && Within(x, p, sep)
      ensures false
    {
      CoversTrans(root, p, x, sep);
    }
  }

  /** One step of cleanDirectory: deletes the longest pending entry, which
      has nothing left below it, or reports that it is inaccessible. */
  method DeleteDeepest(fs: FileSystem, ghost t: Tree, ghost removed: set<Path>, todo: set<Path>, root: Path)
    returns (p: Path, deleted: bool)
    requires todo != {} && todo !! removed && todo + removed == Subtree(t, root, fs.sep)
    requires fs.tree == t - removed
    modifies fs
    ensures p in todo
    ensures deleted ==> p !in fs.denied && fs.tree == t - (removed + {p})
    ensures !deleted ==> p in fs.denied && fs.tree == old(fs.tree)
  {
    var longest := LongestExists(todo);
    p :| p in todo && forall x :: x in todo ==> |x| <= |p|;
    NothingBelowDeepest(t, removed, todo, root, fs.sep, p);
    deleted := fs.Delete(p);
    if deleted {
      assert fs.tree == t - (removed + {p});
    }
  }

  /** Utils.cleanDirectory: deletes every entry at or below `root`, each
      directory after what lies below it. Deleting an entry that stays
      raises an IOException; a missing root is not an error. The
      exception names the file that stays, or, for a directory that cannot
      be walked, the root. */
  method CleanDirectory(fs: FileSystem, root: Path) returns (r: Outcome<IOError>)
    modifies fs
    ensures r.Pass? <==> forall p :: p in Subtree(old(fs.tree), root, fs.sep) ==> p !in fs.denied
    ensures r.Fail? ==>
      r.error == AccessDenied(root) ||
      (r.error.AccessDenied? && r.error.path in Subtree(old(fs.tree), root, fs.sep) &&
       r.error.path in fs.denied && old(fs.tree)[r.error.path].kind == RegularFile)
    ensures r.Pass? ==> fs.tree == old(fs.tree) - Subtree(old(fs.tree), root, fs.sep)
    ensures forall p :: p in fs.tree ==> p in old(fs.tree) && fs.tree[p] == old(fs.tree)[p]
    ensures forall p :: p in old(fs.tree) && !Covers(root, p, fs.sep) ==> p in fs.tree
  {
    ghost var t := fs.tree;
    var todo := Subtree(fs.tree, root, fs.sep);
    ghost var removed: set<Path> := {};
    while todo != {}
      invariant todo !! removed && todo + removed == Subtree(t, root, fs.sep)
      invariant fs.tree == t - removed
      invariant forall p :: p in removed ==> p !in fs.denied
      decreases |todo|
    {
      var p, deleted := DeleteDeepest(fs, t, removed, todo, root);
      if !deleted {
        r := Fail(AccessDenied(if fs.tree[p].kind == Directory then root else p));
        return;
      }
      todo := todo - {p};
      removed := removed + {p};
    }
    r := Pass;
  }
}
