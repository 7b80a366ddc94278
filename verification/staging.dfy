/** AbstractJetMojo: the prerequisite checks and the dependency staging
    the Test Run goal runs before it starts the application, together with
    the staging loop the three build pipelines share. Staging copies the
    main jar into the build directory and every artifact that is a
    regular file into its `lib` subdirectory, and records each staged
    entry by its path relative to the build directory. All paths here are
    absolute, so File.getAbsolutePath leaves them as they are. */
module AbstractJetMojo {
  import opened Wrappers
  import opened JavaLang
  import opened Files
  import opened Host
  import opened Mojo
  import opened JetHome
  import Utils
  import Logging

  const BuildDirName: string := "build"
  const LibDirName: string := "lib"

  const BadPackagingKey: string := "JetMojo.BadPackaging.Failure"
  const MainJarNotFoundKey: string := "JetMojo.MainJarNotFound.Failure"
  const MainNotSpecifiedKey: string := "JetMojo.MainNotSpecified.Failure"
  const DirCreateErrorKey: string := "JetMojo.DirCreate.Error"
  const ErrorCopyingDependencyKey: string := "JetMojo.ErrorCopyingDependency.Exception"

  // ---------------------------------------------------------------------
  // Prerequisites

  /** The message-prefix key of each origin of a JET home setting. */
  function PrefixKey(o: Origin): string {
    match o
    case PluginParameter => "JetHome.PluginParameter.Error.Prefix"
    case ViaVMProp => "JetHome.ViaVMProp.Error.Prefix"
    case ViaEnvVar => "JetHome.ViaEnvVar.Error.Prefix"
  }

  /** A JetHomeException becomes a MojoFailureException with its message;
      an unchecked exception passes through untouched. */
  function HomeFailure(e: JetHomeError): MojoException {
    match e
    case BadJetHomeDir(o, home) => MojoFailureException("JetHome.BadJETHomeDir.Error", [PrefixKey(o), home])
    case UnsupportedJetHomeDir(o, home) => MojoFailureException("JetHome.UnsupportedJETHomeDir.Error", [PrefixKey(o), home])
    case JetNotFound => MojoFailureException("JetHome.JetNotFound.Error", [])
    case NullPointer => Unchecked(NullPointerException)
  }

  /** The home a goal works with: detected when the `jetHome` parameter is
      empty, checked as given otherwise. */
  function ResolveJetHome(h: Host, jetHome: Option<string>): (r: Result<Path, MojoException>)
    ensures r.Success? ==> IsSupportedJetVersion(h, r.value)
    ensures !Utils.IsEmpty(jetHome) ==>
      (r.Success? <==> CheckJetHome(h, ExpandHome(h, jetHome.value), PluginParameter).Pass?)
    ensures !Utils.IsEmpty(jetHome) && r.Success? ==> r.value == ExpandHome(h, jetHome.value)
  {
    var home := if Utils.IsEmpty(jetHome) then ResolveDefault(h) else ResolveExplicit(h, jetHome.value);
    match home
    case Success(p) => Success(p)
    case Failure(e) => Failure(HomeFailure(e))
  }

  /** `"jar".equalsIgnoreCase(packaging)`, for ASCII text. */
  predicate IsJarPackaging(packaging: string) {
    ToUpper(packaging) == "JAR"
  }

  /** The failure for a main jar that was not built: a project whose
      packaging is not `jar` cannot have one; otherwise the jar is named. */
  function MainJarMissing(packaging: string, mainJar: Path): MojoException {
    if !IsJarPackaging(packaging) then MojoFailureException(BadPackagingKey, [packaging])
    else MojoFailureException(MainJarNotFoundKey, [mainJar])
  }

  /** checkPrerequisites: the main jar is checked first, then the main
      class, and only then the JET home. */
  function Prerequisites(h: Host, mainJar: Path, packaging: string, mainClass: Option<string>,
                         jetHome: Option<string>): (r: Result<Path, MojoException>)
    ensures !h.Exists(mainJar) ==> r == Failure(MainJarMissing(packaging, mainJar))
    ensures h.Exists(mainJar) && Utils.IsEmpty(mainClass) ==>
      r == Failure(MojoFailureException(MainNotSpecifiedKey, []))
    ensures r.Success? <==>
      h.Exists(mainJar) && !Utils.IsEmpty(mainClass) && ResolveJetHome(h, jetHome).Success?
    ensures r.Success? ==> IsSupportedJetVersion(h, r.value)
  {
    if !h.Exists(mainJar) then Failure(MainJarMissing(packaging, mainJar))
    else if Utils.IsEmpty(mainClass) then Failure(MojoFailureException(MainNotSpecifiedKey, []))
    else ResolveJetHome(h, jetHome)
  }

  /** checkPrerequisites as a goal runs it: a missing main jar is also
      logged as an error. */
  method CheckPrerequisites(h: Host, log: Logging.Log, mainJar: Path, packaging: string,
                            mainClass: Option<string>, jetHome: Option<string>)
    returns (r: Result<Path, MojoException>)
    modifies log
    ensures r == Prerequisites(h, mainJar, packaging, mainClass, jetHome)
    ensures log.entries == old(log.entries) +
      if h.Exists(mainJar) then []
      else [Logging.Entry(Logging.Error, MessageText(MainJarMissing(packaging, mainJar).key,
                                                      MainJarMissing(packaging, mainJar).args))]
  {
    if !h.Exists(mainJar) {
      var error := MainJarMissing(packaging, mainJar);
      log.Error(MessageText(error.key, error.args));
      return Failure(error);
    }
    if Utils.IsEmpty(mainClass) {
      return Failure(MojoFailureException(MainNotSpecifiedKey, []));
    }
    r := ResolveJetHome(h, jetHome);
  }

  /** mkdir: a missing directory is made with File.mkdirs; the goal fails
      only if the directory still does not exist afterwards. */
  method Mkdir(fs: FileSystem, dir: Path) returns (r: Outcome<MojoException>)
    modifies fs
    ensures r.Pass? <==> dir in fs.tree
    ensures r.Fail? ==> r.error == MojoExecutionException(DirCreateErrorKey, [dir])
    ensures fs.tree == MadeDirs(old(fs.tree), fs.denied, fs.now, fs.sep, dir).tree
  {
    if !fs.Exists(dir) {
      var created := fs.Mkdirs(dir);
      if !fs.Exists(dir) {
        return Fail(MojoExecutionException(DirCreateErrorKey, [dir]));
      }
    }
    r := Pass;
  }

  /** The build directory cannot be made when the output directory is a
      regular file: File.mkdirs makes nothing, so mkdir fails and leaves
      the tree as it was. */
  lemma BuildDirBelowFileFails(t: Tree, denied: set<Path>, now: int, sep: char, jetOutputDir: Path)
    requires IsFile(t, jetOutputDir) && jetOutputDir != [] && sep !in BuildDirName
    requires Child(jetOutputDir, sep, BuildDirName) !in t
    ensures var m := MadeDirs(t, denied, now, sep, Child(jetOutputDir, sep, BuildDirName));
      m.tree == t && Child(jetOutputDir, sep, BuildDirName) !in m.tree
  {
    var dir := Child(jetOutputDir, sep, BuildDirName);
    forall q | q in t && Within(dir, q, sep)
      ensures !Within(q, jetOutputDir, sep)
    {
      assert dir[|q|] == sep by {
        assert dir[..|q| + 1] == q + [sep];
      }
      assert forall k :: |jetOutputDir| < k < |dir| ==> dir[k] in BuildDirName;
    }
    MkdirsBelowFile(t, denied, now, sep, dir, jetOutputDir);
  }

  /** With nothing on the way to the build directory, mkdir makes it and
      every missing directory above it. */
  lemma BuildDirMadeWithParents(t: Tree, denied: set<Path>, now: int, sep: char, jetOutputDir: Path)
    requires forall q :: q in t ==> !StartsWith(Child(jetOutputDir, sep, BuildDirName), q)
    requires forall q :: q in denied ==> !StartsWith(Child(jetOutputDir, sep, BuildDirName), q)
    ensures var m := MadeDirs(t, denied, now, sep, Child(jetOutputDir, sep, BuildDirName));
      IsDirectory(m.tree, Child(jetOutputDir, sep, BuildDirName)) &&
      (jetOutputDir != [] ==> IsDirectory(m.tree, jetOutputDir))
  {
    var dir := Child(jetOutputDir, sep, BuildDirName);
    MkdirsMakesChain(t, denied, now, sep, dir);
    if jetOutputDir != [] {
      assert dir[|jetOutputDir|] == sep && dir[..|jetOutputDir|] == jetOutputDir;
    }
  }

  // ---------------------------------------------------------------------
  // Copy policies

  /** How a staging step copies one dependency:
      `Always` is a plain Files.copy, which fails on an existing target;
      `IfMissing` copies only when the target does not exist;
      `IfMissingOrChanged` is Utils.copyFile, which also replaces a target
      whose modification time differs, keeping the source's attributes. */
  datatype Policy = Always | IfMissing | IfMissingOrChanged

  /** What one staging copy writes at `to` (None: nothing), or the
      exception it raises. */
  function CopyEffect(policy: Policy, t: Tree, denied: set<Path>, now: int, from: Path, to: Path)
    : (r: Result<Option<Node>, IOError>)
    ensures policy.IfMissing? && to in t ==> r == Success(None)
    ensures policy.Always? && to in t ==> r.Failure?
    ensures r.Success? && r.value.Some? ==>
      from in t && r.value.value.kind == t[from].kind && r.value.value.data == t[from].data
    ensures policy != IfMissingOrChanged && r.Success? && r.value.Some? ==> r.value.value.mtime == now
  {
    match policy
    case Always =>
      (match CopyNode(t, denied, now, from, to, false, false)
       case Success(n) => Success(Some(n))
       case Failure(e) => Failure(e))
    case IfMissing =>
      if to in t then Success(None)
      else
        (match CopyNode(t, denied, now, from, to, false, false)
         case Success(n) => Success(Some(n))
         case Failure(e) => Failure(e))
    case IfMissingOrChanged => Utils.CopyFileEffect(t, denied, now, from, to)
  }

  /** One staging copy on the filesystem. */
  method ApplyCopy(fs: FileSystem, policy: Policy, from: Path, to: Path) returns (r: Outcome<IOError>)
    modifies fs
    ensures var e := CopyEffect(policy, old(fs.tree), fs.denied, fs.now, from, to);
      (r.Pass? <==> e.Success?) &&
      fs.tree == (if e.Success? then Utils.Apply(old(fs.tree), to, e.value) else old(fs.tree))
  {
    match policy
    case Always =>
      r := fs.Copy(from, to, false, false);
    case IfMissing =>
      if !fs.Exists(to) {
        r := fs.Copy(from, to, false, false);
      } else {
        r := Pass;
      }
    case IfMissingOrChanged =>
      r := Utils.CopyFile(fs, from, to);
  }

  // ---------------------------------------------------------------------
  // The staging loop

  /** A staged dependency: its path relative to the build directory, and
      whether it counts as a library (its group is not the project's). */
  datatype Dependency = Dependency(dependency: string, isLib: bool)

  /** A resolved project artifact: its file and its Maven group. */
  datatype Artifact = Artifact(file: Path, groupId: string)

  /** The fixed parameters of a staging loop: the copy policy, the `lib`
      directory, the prefix a staged artifact's record gets, and the
      project's group. */
  datatype Stage = Stage(policy: Policy, libDir: Path, libPrefix: string, groupId: string)

  /** The filesystem after a staging loop and its records, or None when
      a copy failed and stopped it. */
  datatype Staging = Staging(tree: Tree, outcome: Option<seq<Dependency>>)

  /** Where an artifact is staged. */
  function LibTarget(c: Stage, sep: char, file: Path): (r: Path)
    ensures Within(r, c.libDir, sep)
  {
    Child(c.libDir, sep, FileName(file, sep))
  }

  /** How a staged artifact is recorded. */
  function Record(c: Stage, sep: char, a: Artifact): Dependency {
    Dependency(c.libPrefix + FileName(a.file, sep), a.groupId != c.groupId)
  }

  /** Records `deps` in front of a later staging's records. */
  function Prefixed(deps: seq<Dependency>, s: Staging): Staging {
    Staging(s.tree, if s.outcome.Some? then Some(deps + s.outcome.value) else None)
  }

  /** The staging loop over the artifacts in order: an artifact whose file
      is a regular file when its turn comes is copied into `lib` and
      recorded, whether or not a copy was needed; the first failed copy
      stops the loop. */
  function StageArtifacts(c: Stage, t: Tree, denied: set<Path>, now: int, sep: char, arts: seq<Artifact>)
    : Staging
    decreases |arts|
  {
    if |arts| == 0 then Staging(t, Some([]))
    else
      var a := arts[0];
      if !IsFile(t, a.file) then StageArtifacts(c, t, denied, now, sep, arts[1..])
      else
        var to := LibTarget(c, sep, a.file);
        match CopyEffect(c.policy, t, denied, now, a.file, to)
        case Failure(_) => Staging(t, None)
        case Success(e) =>
          Prefixed([Record(c, sep, a)], StageArtifacts(c, Utils.Apply(t, to, e), denied, now, sep, arts[1..]))
  }

  /** The loop that stages the artifacts one by one. */
  method StageLoop(fs: FileSystem, c: Stage, arts: seq<Artifact>) returns (r: Option<seq<Dependency>>)
    modifies fs
    ensures Staging(fs.tree, r) == StageArtifacts(c, old(fs.tree), fs.denied, fs.now, fs.sep, arts)
  {
    ghost var spec := StageArtifacts(c, fs.tree, fs.denied, fs.now, fs.sep, arts);
    var deps: seq<Dependency> := [];
    var i := 0;
    assert arts[0..] == arts;
    PrefixedNothing(spec);
    while i < |arts|
      invariant 0 <= i <= |arts|
      invariant spec == Prefixed(deps, StageArtifacts(c, fs.tree, fs.denied, fs.now, fs.sep, arts[i..]))
    {
      var a := arts[i];
      assert arts[i..][0] == a && arts[i..][1..] == arts[i + 1..];
      if IsFile(fs.tree, a.file) {
        var to := LibTarget(c, fs.sep, a.file);
        ghost var before := fs.tree;
        var copied := ApplyCopy(fs, c.policy, a.file, to);
        if copied.Fail? {
          return None;
        }
        PrefixedTwice(deps, [Record(c, fs.sep, a)], StageArtifacts(c, fs.tree, fs.denied, fs.now, fs.sep, arts[i + 1..]));
        deps := deps + [Record(c, fs.sep, a)];
      }
      i := i + 1;
    }
    assert arts[i..] == [] && deps + [] == deps;
    r := Some(deps);
  }

  lemma PrefixedNothing(s: Staging)
    ensures Prefixed([], s) == s
  {
    if s.outcome.Some? {
      assert [] + s.outcome.value == s.outcome.value;
    }
  }

  lemma PrefixedTwice(deps: seq<Dependency>, more: seq<Dependency>, s: Staging)
    ensures Prefixed(deps, Prefixed(more, s)) == Prefixed(deps + more, s)
  {
    if s.outcome.Some? {
      assert deps + (more + s.outcome.value) == deps + more + s.outcome.value;
    }
  }

  // ---------------------------------------------------------------------
  // copyDependencies

  /** The build directory's filesystem and records after staging, or the
      exception that stopped it. */
  datatype Staged = Staged(tree: Tree, outcome: Result<seq<Dependency>, MojoException>)

  /** copyDependencies with a copy policy and a record prefix: the `lib`
      directory is made, the main jar is staged in the build directory
      root and recorded first as no library, then the artifacts follow.
      Any failed copy becomes one MojoExecutionException and no records
      are returned. */
  function CopyDependenciesSpec(policy: Policy, libPrefix: string, t: Tree, denied: set<Path>, now: int, sep: char,
                                buildDir: Path, mainJar: Path, arts: seq<Artifact>, groupId: string): (r: Staged)
    ensures r.outcome.Failure? ==>
      r.outcome.error == MojoExecutionException(DirCreateErrorKey, [Child(buildDir, sep, LibDirName)]) ||
      r.outcome.error == MojoExecutionException(ErrorCopyingDependencyKey, [])
  {
    var libDir := Child(buildDir, sep, LibDirName);
    var t1 := MadeDirs(t, denied, now, sep, libDir).tree;
    if libDir !in t1 then
      Staged(t1, Failure(MojoExecutionException(DirCreateErrorKey, [libDir])))
    else
      var main := Child(buildDir, sep, FileName(mainJar, sep));
      match CopyEffect(policy, t1, denied, now, mainJar, main)
      case Failure(_) => Staged(t1, Failure(MojoExecutionException(ErrorCopyingDependencyKey, [])))
      case Success(e) =>
        var s := StageArtifacts(Stage(policy, libDir, libPrefix, groupId), Utils.Apply(t1, main, e),
                                denied, now, sep, arts);
        Staged(s.tree, match s.outcome
                       case None => Failure(MojoExecutionException(ErrorCopyingDependencyKey, []))
                       case Some(deps) => Success([Dependency(FileName(mainJar, sep), false)] + deps))
  }

  /** copyDependencies with a copy policy and a record prefix. */
  method StageDependencies(fs: FileSystem, policy: Policy, libPrefix: string, buildDir: Path, mainJar: Path,
                           arts: seq<Artifact>, groupId: string)
    returns (r: Result<seq<Dependency>, MojoException>)
    modifies fs
    ensures Staged(fs.tree, r) ==
      CopyDependenciesSpec(policy, libPrefix, old(fs.tree), fs.denied, fs.now, fs.sep, buildDir, mainJar, arts, groupId)
  {
    var libDir := Child(buildDir, fs.sep, LibDirName);
    var made := Mkdir(fs, libDir);
    if made.Fail? {
      return Failure(made.error);
    }
    var copied := ApplyCopy(fs, policy, mainJar, Child(buildDir, fs.sep, FileName(mainJar, fs.sep)));
    if copied.Fail? {
      return Failure(MojoExecutionException(ErrorCopyingDependencyKey, []));
    }
    var rest := StageLoop(fs, Stage(policy, libDir, libPrefix, groupId), arts);
    if rest.None? {
      return Failure(MojoExecutionException(ErrorCopyingDependencyKey, []));
    }
    r := Success([Dependency(FileName(mainJar, fs.sep), false)] + rest.value);
  }

  /** AbstractJetMojo.copyDependencies: copies made with Utils.copyFile's
      policy, artifacts recorded as `lib` + separator + name. */
  method CopyDependencies(fs: FileSystem, buildDir: Path, mainJar: Path, arts: seq<Artifact>, groupId: string)
    returns (r: Result<seq<Dependency>, MojoException>)
    modifies fs
    ensures Staged(fs.tree, r) ==
      CopyDependenciesSpec(IfMissingOrChanged, LibDirName + [fs.sep], old(fs.tree), fs.denied, fs.now, fs.sep,
                           buildDir, mainJar, arts, groupId)
  {
    r := StageDependencies(fs, IfMissingOrChanged, LibDirName + [fs.sep], buildDir, mainJar, arts, groupId);
  }

  // ---------------------------------------------------------------------
  // Properties of staging

  /** The artifacts whose file is a regular file, in order. */
  function FilesOf(t: Tree, arts: seq<Artifact>): (r: seq<Artifact>)
    ensures |r| <= |arts|
    ensures forall a :: a in r ==> a in arts && IsFile(t, a.file)
  {
    if |arts| == 0 then []
    else (if IsFile(t, arts[0].file) then [arts[0]] else []) + FilesOf(t, arts[1..])
  }

  /** The records of staged artifacts. */
  function Records(c: Stage, sep: char, arts: seq<Artifact>): (r: seq<Dependency>)
    ensures |r| == |arts|
    ensures forall i :: 0 <= i < |arts| ==> r[i] == Record(c, sep, arts[i])
  {
    if |arts| == 0 then [] else [Record(c, sep, arts[0])] + Records(c, sep, arts[1..])
  }

  lemma RecordsCons(c: Stage, sep: char, a: Artifact, arts: seq<Artifact>)
    ensures Records(c, sep, [a] + arts) == [Record(c, sep, a)] + Records(c, sep, arts)
  {
    assert ([a] + arts)[1..] == arts;
  }

  /** No artifact file lies in the `lib` directory staging writes to. */
  predicate OutsideLib(c: Stage, sep: char, arts: seq<Artifact>) {
    forall a :: a in arts ==> !Within(a.file, c.libDir, sep)
  }

  /** Staging writes only below the `lib` directory. */
  lemma {:induction false} StagingFrame(c: Stage, t: Tree, denied: set<Path>, now: int, sep: char,
                                        arts: seq<Artifact>, k: Path)
    requires !Within(k, c.libDir, sep)
    ensures k in StageArtifacts(c, t, denied, now, sep, arts).tree <==> k in t
    ensures k in t ==> StageArtifacts(c, t, denied, now, sep, arts).tree[k] == t[k]
    decreases |arts|
  {
    if |arts| > 0 {
      var a := arts[0];
      if !IsFile(t, a.file) {
        StagingFrame(c, t, denied, now, sep, arts[1..], k);
      } else {
        var to := LibTarget(c, sep, a.file);
        match CopyEffect(c.policy, t, denied, now, a.file, to)
        case Failure(e) =>
        case Success(e) =>
          StagingFrame(c, Utils.Apply(t, to, e), denied, now, sep, arts[1..], k);
      }
    }
  }

  /** Staging never removes an entry. */
  lemma {:induction false} StagingKeeps(c: Stage, t: Tree, denied: set<Path>, now: int, sep: char,
                                        arts: seq<Artifact>, k: Path)
    requires k in t
    ensures k in StageArtifacts(c, t, denied, now, sep, arts).tree
    decreases |arts|
  {
    if |arts| > 0 {
      var a := arts[0];
      if !IsFile(t, a.file) {
        StagingKeeps(c, t, denied, now, sep, arts[1..], k);
      } else {
        var to := LibTarget(c, sep, a.file);
        match CopyEffect(c.policy, t, denied, now, a.file, to)
        case Failure(e) =>
        case Success(e) =>
          StagingKeeps(c, Utils.Apply(t, to, e), denied, now, sep, arts[1..], k);
      }
    }
  }

  /** When the artifact files lie outside `lib`, a successful staging
      records exactly the artifacts that are regular files, each once and
      in artifact order, whether or not its copy was needed; the group
      test decides each record's library flag. */
  lemma {:induction false} StagedAreTheFiles(c: Stage, t: Tree, denied: set<Path>, now: int, sep: char,
                                             arts: seq<Artifact>)
    requires OutsideLib(c, sep, arts)
    ensures var s := StageArtifacts(c, t, denied, now, sep, arts);
      s.outcome.Some? ==> s.outcome.value == Records(c, sep, FilesOf(t, arts))
    decreases |arts|
  {
    if |arts| > 0 {
      var a := arts[0];
      assert a in arts;
      assert OutsideLib(c, sep, arts[1..]) by {
        forall b | b in arts[1..] ensures b in arts { }
      }
      if !IsFile(t, a.file) {
        StagedAreTheFiles(c, t, denied, now, sep, arts[1..]);
      } else {
        var to := LibTarget(c, sep, a.file);
        match CopyEffect(c.policy, t, denied, now, a.file, to)
        case Failure(e) =>
        case Success(e) =>
          var t' := Utils.Apply(t, to, e);
          StagedAreTheFiles(c, t', denied, now, sep, arts[1..]);
          FilesOfUnchanged(c, t, t', sep, arts[1..]);
      }
    }
  }

  /** Which artifacts are regular files depends only on entries outside
      `lib`. */
  lemma {:induction false} FilesOfUnchanged(c: Stage, t: Tree, t': Tree, sep: char, arts: seq<Artifact>)
    requires OutsideLib(c, sep, arts)
    requires forall k :: !Within(k, c.libDir, sep) ==> (k in t <==> k in t') && (k in t ==> t[k] == t'[k])
    ensures FilesOf(t', arts) == FilesOf(t, arts)
    decreases |arts|
  {
    if |arts| > 0 {
      assert arts[0] in arts;
      assert OutsideLib(c, sep, arts[1..]) by {
        forall b | b in arts[1..] ensures b in arts { }
      }
      FilesOfUnchanged(c, t, t', sep, arts[1..]);
    }
  }

  /** Copying only missing files, a staging whose targets all exist writes
      nothing. */
  lemma {:induction false} AllPresentIsNoOp(c: Stage, t: Tree, denied: set<Path>, now: int, sep: char,
                                            arts: seq<Artifact>)
    requires c.policy == IfMissing
    requires forall a :: a in arts && IsFile(t, a.file) ==> LibTarget(c, sep, a.file) in t
    ensures StageArtifacts(c, t, denied, now, sep, arts) == Staging(t, Some(Records(c, sep, FilesOf(t, arts))))
    decreases |arts|
  {
    if |arts| > 0 {
      var a := arts[0];
      assert forall b :: b in arts[1..] ==> b in arts;
      AllPresentIsNoOp(c, t, denied, now, sep, arts[1..]);
      var rest := Records(c, sep, FilesOf(t, arts[1..]));
      if IsFile(t, a.file) {
        assert a in arts;
        var to := LibTarget(c, sep, a.file);
        assert CopyEffect(c.policy, t, denied, now, a.file, to) == Success(None);
        assert Utils.Apply(t, to, None) == t;
        assert FilesOf(t, arts) == [a] + FilesOf(t, arts[1..]);
        RecordsCons(c, sep, a, FilesOf(t, arts[1..]));
      } else {
        assert FilesOf(t, arts) == FilesOf(t, arts[1..]);
      }
    }
  }

  /** After a successful staging every staged artifact's target exists. */
  lemma {:induction false} StagedTargetsExist(c: Stage, t: Tree, denied: set<Path>, now: int, sep: char,
                                              arts: seq<Artifact>)
    requires OutsideLib(c, sep, arts)
    requires StageArtifacts(c, t, denied, now, sep, arts).outcome.Some?
    ensures forall a :: a in arts && IsFile(t, a.file) ==>
      LibTarget(c, sep, a.file) in StageArtifacts(c, t, denied, now, sep, arts).tree
    decreases |arts|
  {
    if |arts| > 0 {
      var a := arts[0];
      assert a in arts;
      assert OutsideLib(c, sep, arts[1..]) by {
        forall b | b in arts[1..] ensures b in arts { }
      }
      if !IsFile(t, a.file) {
        StagedTargetsExist(c, t, denied, now, sep, arts[1..]);
      } else {
        var to := LibTarget(c, sep, a.file);
        var e := CopyEffect(c.policy, t, denied, now, a.file, to).value;
        var t' := Utils.Apply(t, to, e);
        StagedTargetsExist(c, t', denied, now, sep, arts[1..]);
        FilesOfUnchanged(c, t, t', sep, arts[1..]);
        assert to in t' by {
          if e.None? {
            assert to in t;
          }
        }
        StagingKeeps(c, t', denied, now, sep, arts[1..], to);
      }
    }
  }

  /** Copying only missing files, staging the same artifacts again over
      its own result writes nothing and records the same dependencies. */
  lemma StagingIfMissingSettles(c: Stage, t: Tree, denied: set<Path>, now: int, sep: char, arts: seq<Artifact>)
    requires c.policy == IfMissing && OutsideLib(c, sep, arts)
    requires StageArtifacts(c, t, denied, now, sep, arts).outcome.Some?
    ensures var s := StageArtifacts(c, t, denied, now, sep, arts);
      StageArtifacts(c, s.tree, denied, now, sep, arts) == s
  {
    var s := StageArtifacts(c, t, denied, now, sep, arts);
    forall k | !Within(k, c.libDir, sep)
      ensures (k in t <==> k in s.tree) && (k in t ==> t[k] == s.tree[k])
    {
      StagingFrame(c, t, denied, now, sep, arts, k);
    }
    FilesOfUnchanged(c, t, s.tree, sep, arts);
    StagedTargetsExist(c, t, denied, now, sep, arts);
    StagedAreTheFiles(c, t, denied, now, sep, arts);
    AllPresentIsNoOp(c, s.tree, denied, now, sep, arts);
  }

  /** The main jar is recorded first, at the build directory root, and
      never as a library. */
  lemma MainJarFirst(policy: Policy, libPrefix: string, t: Tree, denied: set<Path>, now: int, sep: char,
                     buildDir: Path, mainJar: Path, arts: seq<Artifact>, groupId: string)
    ensures var s := CopyDependenciesSpec(policy, libPrefix, t, denied, now, sep, buildDir, mainJar, arts, groupId);
      s.outcome.Success? ==>
        |s.outcome.value| >= 1 && s.outcome.value[0] == Dependency(FileName(mainJar, sep), false) &&
        sep !in s.outcome.value[0].dependency
  {
  }

  /** A staged artifact's record is its path relative to the build
      directory, as Path.relativize gives it. */
  lemma RecordIsRelative(buildDir: Path, sep: char, groupId: string, a: Artifact)
    ensures var c := Stage(IfMissingOrChanged, Child(buildDir, sep, LibDirName), LibDirName + [sep], groupId);
      Within(LibTarget(c, sep, a.file), buildDir, sep) &&
      Relative(LibTarget(c, sep, a.file), buildDir, sep) == Record(c, sep, a).dependency
  {
    var c := Stage(IfMissingOrChanged, Child(buildDir, sep, LibDirName), LibDirName + [sep], groupId);
    var to := LibTarget(c, sep, a.file);
    assert to == buildDir + [sep] + (LibDirName + [sep] + FileName(a.file, sep));
    assert to[..|buildDir| + 1] == buildDir + [sep];
  }

  // ---------------------------------------------------------------------
  // The copy of a dependency as written

  /** copyDependency as written: a missing target is copied, and an
      existing one is replaced when its modification time differs from the
      source's; neither copy passes COPY_ATTRIBUTES, so the copy is stamped
      with the clock. */
  function CopyDependencyAsWritten(t: Tree, denied: set<Path>, now: int, from: Path, to: Path)
    : (r: Result<Option<Node>, IOError>)
    ensures r.Success? && r.value.Some? ==> r.value.value.mtime == now
  {
    if to !in t then
      match CopyNode(t, denied, now, from, to, false, false)
      case Success(n) => Success(Some(n))
      case Failure(e) => Failure(e)
    else if LastModified(t, to) != LastModified(t, from) then
      match CopyNode(t, denied, now, from, to, true, false)
      case Success(n) => Success(Some(n))
      case Failure(e) => Failure(e)
    else Success(None)
  }

  /** As written, the modification-time test never settles: a dependency
      whose time differs from the clock at its copy is copied again on
      the next run, and on every run after it. */
  lemma DependencyRecopiedAsWritten(t: Tree, denied: set<Path>, now: int, later: int, from: Path, to: Path)
    requires from != to && IsFile(t, from) && from !in denied && to !in t && to !in denied
    requires t[from].mtime != now
    ensures var first := CopyDependencyAsWritten(t, denied, now, from, to);
      first.Success? && first.value.Some? &&
      CopyDependencyAsWritten(t[to := first.value.value], denied, later, from, to).Success? &&
      CopyDependencyAsWritten(t[to := first.value.value], denied, later, from, to).value.Some?
  {
    var first := CopyDependencyAsWritten(t, denied, now, from, to);
    assert first.Success? && first.value.Some?;
    var t1 := t[to := first.value.value];
    assert from in t1 && t1[from] == t[from];
    assert LastModified(t1, to) == now && LastModified(t1, from) == t[from].mtime;
  }

  /** With COPY_ATTRIBUTES, as Utils.copyFile and the Test Run's package
      file copy do, the copy keeps the source's time and the next run
      copies nothing. */
  lemma DependencySettles(t: Tree, denied: set<Path>, now: int, from: Path, to: Path)
    requires CopyEffect(IfMissingOrChanged, t, denied, now, from, to).Success?
    ensures var e := CopyEffect(IfMissingOrChanged, t, denied, now, from, to).value;
      CopyEffect(IfMissingOrChanged, Utils.Apply(t, to, e), denied, now, from, to) == Success(None)
  {
    Utils.CopyFileIdempotent(t, denied, now, from, to);
  }
}
