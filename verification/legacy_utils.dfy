/** com.excelsior.jet.Utils, the older helper class: its host predicates,
    executable naming and emptiness test are the same expressions as in
    com.excelsiorjet.Utils and are modelled once, in module Utils; what
    differs is cleanDirectory, a recursion over directory listings that
    never throws. */
module LegacyUtils {
  import opened JavaLang
  import opened Files
  import Utils

  /** The entry directly below `root` on the way to `p`. */
  function Top(root: Path, p: Path, sep: char): (r: Path)
    requires Within(p, root, sep)
    ensures Within(r, root, sep) && Covers(r, p, sep)
    ensures sep !in r[|root| + 1..]
  {
    var rest := p[|root| + 1..];
    var k := IndexOf(rest, sep);
    if k < 0 then p
    else
      assert p[..|root| + 1 + k][..|root| + 1] == p[..|root| + 1];
      assert p[..|root| + 1 + k][|root| + 1..] == rest[..k];
      assert p[..|root| + 1 + k + 1] == p[..|root| + 1 + k] + [sep];
      p[..|root| + 1 + k]
  }

  /** `c` is a direct child of `root`: one name below it. */
  predicate ChildPath(c: Path, root: Path, sep: char) {
    Within(c, root, sep) && sep !in c[|root| + 1..]
  }

  /** A direct child of `root` is its own top entry, and it is the top
      entry of everything below it. */
  lemma TopOfChild(root: Path, c: Path, p: Path, sep: char)
    requires ChildPath(c, root, sep) && Covers(c, p, sep)
    ensures Within(p, root, sep) && Top(root, p, sep) == c
  {
    var rest := p[|root| + 1..];
    assert p[..|c|] == c by {
      if p != c {
        assert p[..|c|] == p[..|c| + 1][..|c|];
      }
    }
    assert p[..|root| + 1] == root + [sep] by {
      assert p[..|root| + 1] == p[..|c|][..|root| + 1];
    }
    var name := c[|root| + 1..];
    assert rest[..|name|] == name by {
      assert p[..|c|] == c;
    }
    if p == c {
      assert rest == name;
      IndexOfAbsent(rest, sep);
    } else {
      assert rest[|name|] == sep by {
        assert p[..|c| + 1] == c + [sep];
      }
      IndexOfFirst(rest, sep, |name|);
      assert p[..|root| + 1 + |name|] == c by {
        assert p[..|c|] == c;
      }
    }
  }

  /** IndexOf of an absent character. */
  lemma IndexOfAbsent(s: string, c: char)
    requires c !in s
    ensures IndexOf(s, c) == -1
  {
  }

  /** IndexOf finds the first occurrence. */
  lemma {:induction false} IndexOfFirst(s: string, c: char, k: nat)
    requires k < |s| && s[k] == c && c !in s[..k]
    ensures IndexOf(s, c) == k
    decreases k
  {
    if k > 0 {
      assert s[0] == s[..k][0];
      assert s[1..][..k - 1] == s[..k][1..];
      IndexOfFirst(s[1..], c, k - 1);
    }
  }

  /** The direct children a listing of `root` returns. */
  function Children(t: Tree, root: Path, sep: char): (r: set<Path>)
    ensures forall c :: c in r <==> c in t && ChildPath(c, root, sep)
  {
    set c | c in t && ChildPath(c, root, sep)
  }

  /** The recursion started at `root` reaches `d`: every directory on the
      way down from `root` exists, can be listed, and lists the next one. */
  ghost predicate Reached(t: Tree, denied: set<Path>, root: Path, sep: char, d: Path)
    decreases |d| - |root|
  {
    d == root ||
    (Within(d, root, sep) && IsDirectory(t, root) && root !in denied &&
     Reached(t, denied, Top(root, d, sep), sep, d))
  }

  /** `p` cannot be removed: at or below it lies an entry that is
      inaccessible or that the recursion never reaches. */
  ghost predicate Survives(t: Tree, denied: set<Path>, root: Path, sep: char, p: Path) {
    exists d :: d in t && Covers(p, d, sep) && (d in denied || !Reached(t, denied, root, sep, d))
  }

  /** The tree cleanDirectory leaves: everything outside `root` stays, and
      below it exactly what survives. */
  ghost function Cleaned(t: Tree, denied: set<Path>, root: Path, sep: char): Tree {
    map p | p in t && (!Covers(root, p, sep) || Survives(t, denied, root, sep, p)) :: t[p]
  }

  /** A tree related to `t` as cleanDirectory's contract relates the trees
      before and after is the cleaned tree. */
  lemma CleanedIs(t: Tree, t': Tree, denied: set<Path>, root: Path, sep: char)
    requires forall p :: p in t' ==> p in t && t'[p] == t[p]
    requires forall p :: p in t && !Covers(root, p, sep) ==> p in t'
    requires forall p :: p in Subtree(t, root, sep) ==> (p in t' <==> Survives(t, denied, root, sep, p))
    ensures t' == Cleaned(t, denied, root, sep)
  {
    var c := Cleaned(t, denied, root, sep);
    forall p
      ensures p in t' <==> p in c
    {
      if p in t && Covers(root, p, sep) {
        assert p in Subtree(t, root, sep);
      }
    }
  }

  /** Below a listable directory, reaching an entry from the directory and
      from its top child are the same. */
  lemma ReachedViaChild(t: Tree, denied: set<Path>, root: Path, sep: char, c: Path, d: Path)
    requires IsDirectory(t, root) && root !in denied
    requires ChildPath(c, root, sep) && Covers(c, d, sep)
    ensures Reached(t, denied, root, sep, d) <==> Reached(t, denied, c, sep, d)
  {
    TopOfChild(root, c, d, sep);
  }

  lemma SurvivesViaChild(t: Tree, denied: set<Path>, root: Path, sep: char, c: Path, p: Path)
    requires IsDirectory(t, root) && root !in denied
    requires ChildPath(c, root, sep) && Covers(c, p, sep)
    ensures Survives(t, denied, root, sep, p) <==> Survives(t, denied, c, sep, p)
  {
    if Survives(t, denied, root, sep, p) {
      var d :| d in t && Covers(p, d, sep) && (d in denied || !Reached(t, denied, root, sep, d));
      Utils.CoversTrans(c, p, d, sep);
      ReachedViaChild(t, denied, root, sep, c, d);
    }
    if Survives(t, denied, c, sep, p) {
      var d :| d in t && Covers(p, d, sep) && (d in denied || !Reached(t, denied, c, sep, d));
      Utils.CoversTrans(c, p, d, sep);
      ReachedViaChild(t, denied, root, sep, c, d);
    }
  }

  /** Two filesystems that agree at and below `root` agree on what is
      reached from it. */
  lemma {:induction false} ReachedLocal(t1: Tree, t2: Tree, denied: set<Path>, root: Path, sep: char, d: Path)
    requires forall x :: Covers(root, x, sep) ==> (x in t1 <==> x in t2) && (x in t1 ==> t1[x] == t2[x])
    requires Covers(root, d, sep)
    ensures Reached(t1, denied, root, sep, d) <==> Reached(t2, denied, root, sep, d)
    decreases |d| - |root|
  {
    if d != root {
      var c := Top(root, d, sep);
      forall x | Covers(c, x, sep)
        ensures (x in t1 <==> x in t2) && (x in t1 ==> t1[x] == t2[x])
      {
        Utils.CoversTrans(root, c, x, sep);
      }
      ReachedLocal(t1, t2, denied, c, sep, d);
    }
  }

  lemma SurvivesLocal(t1: Tree, t2: Tree, denied: set<Path>, root: Path, sep: char, p: Path)
    requires forall x :: Covers(root, x, sep) ==> (x in t1 <==> x in t2) && (x in t1 ==> t1[x] == t2[x])
    requires Covers(root, p, sep)
    ensures Survives(t1, denied, root, sep, p) <==> Survives(t2, denied, root, sep, p)
  {
    if Survives(t1, denied, root, sep, p) {
      var d :| d in t1 && Covers(p, d, sep) && (d in denied || !Reached(t1, denied, root, sep, d));
      Utils.CoversTrans(root, p, d, sep);
      ReachedLocal(t1, t2, denied, root, sep, d);
    }
    if Survives(t2, denied, root, sep, p) {
      var d :| d in t2 && Covers(p, d, sep) && (d in denied || !Reached(t2, denied, root, sep, d));
      Utils.CoversTrans(root, p, d, sep);
      ReachedLocal(t1, t2, denied, root, sep, d);
    }
  }

  /** An entry below `root` whose top entry does not exist is never
      reached. */
  lemma UnlistedUnreached(t: Tree, denied: set<Path>, root: Path, sep: char, p: Path)
    requires p in t && Within(p, root, sep) && Top(root, p, sep) !in t
    ensures !Reached(t, denied, root, sep, p)
  {
    assert !Reached(t, denied, Top(root, p, sep), sep, p);
  }

  /** A directory that cannot be listed is left alone, with all it holds. */
  lemma ListingFailed(t: Tree, denied: set<Path>, f: Path, sep: char)
    requires IsDirectory(t, f) && f in denied
    ensures forall p :: p in Subtree(t, f, sep) ==> Survives(t, denied, f, sep, p)
  {
    forall p | p in Subtree(t, f, sep)
      ensures Survives(t, denied, f, sep, p)
    {
      assert p in t && Covers(p, p, sep) && (p in denied || !Reached(t, denied, f, sep, p));
    }
  }

  /** A child's tree is strictly smaller than its parent's. */
  lemma ChildSmaller(t: Tree, ti: Tree, f: Path, c: Path, sep: char)
    requires f in t && ChildPath(c, f, sep)
    requires forall p :: p in ti ==> p in t
    ensures Subtree(ti, c, sep) < Subtree(t, f, sep)
  {
    forall x | x in Subtree(ti, c, sep)
      ensures x in Subtree(t, f, sep)
    {
      Utils.CoversTrans(f, c, x, sep);
    }
    assert f !in Subtree(ti, c, sep);
  }

  /** File.delete on an entry that is not a listable directory: a missing
      entry, a file, or anything below such an entry, is reached by no
      listing. */
  lemma NotListable(t: Tree, t2: Tree, denied: set<Path>, f: Path, sep: char, deleted: bool)
    requires !IsDirectory(t, f)
    requires deleted <==> f in t && f !in denied && forall q :: q in t ==> !Within(q, f, sep)
    requires t2 == (if deleted then t - {f} else t)
    ensures forall p :: p in t2 ==> p in t && t2[p] == t[p]
    ensures forall p :: p in t && !Covers(f, p, sep) ==> p in t2
    ensures forall p :: p in Subtree(t, f, sep) ==> (p in t2 <==> Survives(t, denied, f, sep, p))
  {
    forall p | p in Subtree(t, f, sep)
      ensures p in t2 <==> Survives(t, denied, f, sep, p)
    {
      if p != f {
        assert !Reached(t, denied, f, sep, p);
      } else if !deleted {
        if f in denied {
          assert Reached(t, denied, f, sep, f);
        } else {
          var q :| q in t && Within(q, f, sep);
          assert !Reached(t, denied, f, sep, q);
        }
      }
    }
  }

  /** The loop step: cleaning child `farr[i]` settles the entries below it
      and leaves the rest as they were. */
  lemma ChildStep(t: Tree, ti: Tree, tn: Tree, denied: set<Path>, f: Path, sep: char, farr: seq<Path>, i: int)
    requires IsDirectory(t, f) && f !in denied
    requires 0 <= i < |farr|
    requires forall c :: c in farr <==> c in Children(t, f, sep)
    requires forall a, b :: 0 <= a < b < |farr| ==> farr[a] != farr[b]
    requires forall p :: p in ti ==> p in t && ti[p] == t[p]
    requires forall p :: p in t && !(Within(p, f, sep) && Top(f, p, sep) in farr[i + 1..]) ==> p in ti
    requires forall p :: p in t && Within(p, f, sep) && Top(f, p, sep) in farr[i + 1..] ==>
      (p in ti <==> Survives(t, denied, f, sep, p))
    requires forall p :: p in tn ==> p in ti && tn[p] == ti[p]
    requires forall p :: p in ti && !Covers(farr[i], p, sep) ==> p in tn
    requires forall p :: p in Subtree(ti, farr[i], sep) ==>
      (p in tn <==> Survives(ti, denied, farr[i], sep, p))
    ensures forall p :: p in tn ==> p in t && tn[p] == t[p]
    ensures forall p :: p in t && !(Within(p, f, sep) && Top(f, p, sep) in farr[i..]) ==> p in tn
    ensures forall p :: p in t && Within(p, f, sep) && Top(f, p, sep) in farr[i..] ==>
      (p in tn <==> Survives(t, denied, f, sep, p))
  {
    var c := farr[i];
    assert farr[i..] == [c] + farr[i + 1..];
    assert c !in farr[i + 1..] by {
      forall j | i + 1 <= j < |farr|
        ensures farr[j] != c
      {
      }
    }
    assert c in Children(t, f, sep);
    forall x | Covers(c, x, sep)
      ensures (x in ti <==> x in t) && (x in ti ==> ti[x] == t[x])
    {
      TopOfChild(f, c, x, sep);
    }
    forall p | p in t && Within(p, f, sep) && Top(f, p, sep) in farr[i..]
      ensures p in tn <==> Survives(t, denied, f, sep, p)
    {
      if Top(f, p, sep) == c {
        SurvivesLocal(ti, t, denied, c, sep, p);
        SurvivesViaChild(t, denied, f, sep, c, p);
      } else if Covers(c, p, sep) {
        TopOfChild(f, c, p, sep);
      }
    }
    forall p | p in t && !(Within(p, f, sep) && Top(f, p, sep) in farr[i..])
      ensures p in tn
    {
      if Covers(c, p, sep) {
        TopOfChild(f, c, p, sep);
      }
    }
  }

  /** The final delete of a listed directory succeeds exactly when nothing
      below it survived. */
  lemma AfterChildren(t: Tree, t': Tree, t2: Tree, denied: set<Path>, f: Path, sep: char, farr: seq<Path>,
                      deleted: bool)
    requires IsDirectory(t, f) && f !in denied
    requires forall c :: c in farr <==> c in Children(t, f, sep)
    requires forall p :: p in t' ==> p in t && t'[p] == t[p]
    requires forall p :: p in t && !(Within(p, f, sep) && Top(f, p, sep) in farr) ==> p in t'
    requires forall p :: p in t && Within(p, f, sep) && Top(f, p, sep) in farr ==>
      (p in t' <==> Survives(t, denied, f, sep, p))
    requires deleted <==> f in t' && f !in denied && forall q :: q in t' ==> !Within(q, f, sep)
    requires t2 == (if deleted then t' - {f} else t')
    ensures forall p :: p in t2 ==> p in t && t2[p] == t[p]
    ensures forall p :: p in t && !Covers(f, p, sep) ==> p in t2
    ensures forall p :: p in Subtree(t, f, sep) ==> (p in t2 <==> Survives(t, denied, f, sep, p))
  {
    forall p | p in t && Within(p, f, sep)
      ensures p in t' <==> Survives(t, denied, f, sep, p)
    {
      if Top(f, p, sep) !in farr {
        UnlistedUnreached(t, denied, f, sep, p);
      }
    }
    if Survives(t, denied, f, sep, f) {
      var d :| d in t && Covers(f, d, sep) && (d in denied || !Reached(t, denied, f, sep, d));
      assert d != f;
      assert Survives(t, denied, f, sep, d) by {
        assert Covers(d, d, sep);
      }
    } else {
      forall q | q in t' && Within(q, f, sep)
        ensures false
      {
        var d :| d in t && Covers(q, d, sep) && (d in denied || !Reached(t, denied, f, sep, d));
        Utils.CoversTrans(f, q, d, sep);
      }
    }
  }

  /** File.listFiles of a readable directory, in an order left open. */
  method ListFiles(fs: FileSystem, root: Path) returns (farr: seq<Path>)
    ensures forall c :: c in farr <==> c in Children(fs.tree, root, fs.sep)
    ensures forall i, j :: 0 <= i < j < |farr| ==> farr[i] != farr[j]
  {
    var rest := Children(fs.tree, root, fs.sep);
    farr := [];
    while rest != {}
      invariant forall c :: c in farr || c in rest <==> c in Children(fs.tree, root, fs.sep)
      invariant forall c :: c in farr ==> c !in rest
      invariant forall i, j :: 0 <= i < j < |farr| ==> farr[i] != farr[j]
      decreases |rest|
    {
      var c :| c in rest;
      farr := farr + [c];
      rest := rest - {c};
    }
  }

  /** Utils.cleanDirectory (old package): cleans the children of a
      listable directory in reverse listing order, then deletes the entry
      itself, ignoring every failure. An entry at or below `f` is left in
      place exactly when it survives. */
  method CleanDirectory(fs: FileSystem, f: Path)
    modifies fs
    decreases Subtree(fs.tree, f, fs.sep), 1
    ensures forall p :: p in fs.tree ==> p in old(fs.tree) && fs.tree[p] == old(fs.tree)[p]
    ensures forall p :: p in old(fs.tree) && !Covers(f, p, fs.sep) ==> p in fs.tree
    ensures forall p :: p in Subtree(old(fs.tree), f, fs.sep) ==>
      (p in fs.tree <==> Survives(old(fs.tree), fs.denied, f, fs.sep, p))
  {
    ghost var t := fs.tree;
    if IsDirectory(fs.tree, f) {
      if f in fs.denied {
        ListingFailed(t, fs.denied, f, fs.sep);
        return;
      }
      var farr := ListFiles(fs, f);
      CleanChildren(fs, f, farr);
      ghost var t' := fs.tree;
      var deleted := fs.Delete(f);
      AfterChildren(t, t', fs.tree, fs.denied, f, fs.sep, farr, deleted);
    } else {
      var deleted := fs.Delete(f);
      NotListable(t, fs.tree, fs.denied, f, fs.sep, deleted);
    }
  }

  /** The loop of cleanDirectory over a directory's listing, last entry
      first: every entry below a listed child is left in place exactly when
      it survives, everything else is untouched. */
  method CleanChildren(fs: FileSystem, f: Path, farr: seq<Path>)
    modifies fs
    requires IsDirectory(fs.tree, f) && f !in fs.denied
    requires forall c :: c in farr <==> c in Children(fs.tree, f, fs.sep)
    requires forall i, j :: 0 <= i < j < |farr| ==> farr[i] != farr[j]
    decreases Subtree(fs.tree, f, fs.sep), 0
    ensures forall p :: p in fs.tree ==> p in old(fs.tree) && fs.tree[p] == old(fs.tree)[p]
    ensures forall p :: p in old(fs.tree) && !(Within(p, f, fs.sep) && Top(f, p, fs.sep) in farr) ==> p in fs.tree
    ensures forall p :: p in old(fs.tree) && Within(p, f, fs.sep) && Top(f, p, fs.sep) in farr ==>
      (p in fs.tree <==> Survives(old(fs.tree), fs.denied, f, fs.sep, p))
  {
    ghost var t := fs.tree;
    var i := |farr| - 1;
    while i >= 0
      invariant -1 <= i < |farr|
      invariant forall p :: p in fs.tree ==> p in t && fs.tree[p] == t[p]
      invariant forall p :: p in t && !(Within(p, f, fs.sep) && Top(f, p, fs.sep) in farr[i + 1..]) ==> p in fs.tree
      invariant forall p :: p in t && Within(p, f, fs.sep) && Top(f, p, fs.sep) in farr[i + 1..] ==>
        (p in fs.tree <==> Survives(t, fs.denied, f, fs.sep, p))
      decreases i
    {
      var c := farr[i];
      assert c in Children(t, f, fs.sep);
      ghost var ti := fs.tree;
      ChildSmaller(t, ti, f, c, fs.sep);
      CleanDirectory(fs, c);
      ChildStep(t, ti, fs.tree, fs.denied, f, fs.sep, farr, i);
      i := i - 1;
    }
    assert farr[0..] == farr;
  }
}
