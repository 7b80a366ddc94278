/** TestRunMojo (com.excelsiorjet.maven.plugin): the `testrun` goal. It
    stages the application into `build` as the build goal would, mirrors
    the package files next to it, and runs the application once on the JET
    runtime with `xjava`, which records the execution profiles a later
    build uses. The run itself is outside the model: the launch is
    recorded, and what it prints, how it exits and what it writes are
    inputs. */
module TestRunMojo {
  import opened Wrappers
  import opened JavaLang
  import opened Files
  import opened Host
  import opened Mojo
  import opened Logging
  import opened CmdLineTool
  import opened TestRunProfiles
  import AbstractJetMojo
  import JetMojoSettings
  import JetMojo
  import JetHome
  import XJava
  import Utils

  const CannotCopyPackageFileKey: string := "TestRunMojo.CannotCopyPackageFile.Warning"
  const ErrorWhileCopyingKey: string := "TestRunMojo.ErrorWhileCopying.Warning"
  const StartKey: string := "TestRunMojo.Start.Info"
  const FinishKey: string := "TestRunMojo.Finish.Info"

  /** The placeholder a JVM argument uses for the build directory. */
  const RootMacro: string := "$(Root)"

  /** The parameters of the goal. `jvmArgs` is None when the array is
      null. */
  datatype Parameters = Parameters(mainJar: Path, mainClass: Option<string>, jetHome: Option<string>,
                                   jetOutputDir: Path, packageFilesDir: Path, jvmArgs: Option<seq<string>>,
                                   execProfilesDir: Path, execProfilesName: string)

  // ---------------------------------------------------------------------
  // The command line

  /** The JVM arguments with every `$(Root)` replaced by the build
      directory, in their order. */
  function RootSubstituted(jvmArgs: seq<string>, root: Path): (r: seq<string>)
    ensures |r| == |jvmArgs|
    ensures forall i :: 0 <= i < |jvmArgs| ==> r[i] == Replace(jvmArgs[i], RootMacro, root)
  {
    seq(|jvmArgs|, i requires 0 <= i < |jvmArgs| => Replace(jvmArgs[i], RootMacro, root))
  }

  /** The class path: the staged files, relative to the build directory,
      in staging order, joined with the path separator. */
  function Classpath(deps: seq<AbstractJetMojo.Dependency>, pathSep: char): string {
    Join(JetMojo.DependencyPaths(deps), pathSep)
  }

  /** The `xjava` executable of a JET home. The newer JetTool, which locates
      it, is not part of this model; the older one names it like this. */
  function XJavaExecutable(h: Host, home: Path): Path {
    Utils.MangleExeName(h.osName, Child(JetHome.GetJetBinDirectory(h, home), h.sep, XJava.XJavaName))
  }

  /** The arguments `xjava` receives: the profile options, the JVM
      arguments, then `-cp`, the class path and the main class. */
  function TestRunArgs(h: Host, profiles: TestRunExecProfiles, is64bit: bool, jvmArgs: seq<string>,
                       classpath: string, mainClass: string): (r: seq<string>)
    ensures var n := |XJava.TestRunArgs(h, profiles, is64bit)|;
      |r| == n + |jvmArgs| + 3 &&
      r[..n] == XJava.TestRunArgs(h, profiles, is64bit) &&
      r[n..n + |jvmArgs|] == jvmArgs &&
      r[n + |jvmArgs|..] == ["-cp", classpath, mainClass]
  {
    var profileArgs := XJava.TestRunArgs(h, profiles, is64bit);
    var r := profileArgs + jvmArgs + ["-cp", classpath, mainClass];
    assert r[..|profileArgs|] == profileArgs;
    assert r[|profileArgs|..|profileArgs| + |jvmArgs|] == jvmArgs;
    r
  }

  /** How the command line shows one argument: in double quotes when it
      holds a space. */
  function Quoted(arg: string): string {
    if Contains(arg, " ") then "\"" + arg + "\"" else arg
  }

  /** Reading one shown argument back: the quotes of a quoted argument
      that holds a space are dropped. */
  function Unquoted(q: string): string {
    if |q| >= 2 && q[0] == '"' && q[|q| - 1] == '"' && ' ' in q then q[1..|q| - 1] else q
  }

  /** The command line the goal logs before the run. */
  function CommandLine(args: seq<string>): string {
    Join(seq(|args|, i requires 0 <= i < |args| => Quoted(args[i])), ' ')
  }

  /** The entry that reports the exit code: a warning when it is not 0. */
  function FinishEntry(exitCode: int): (r: Entry)
    ensures r.text == MessageText(FinishKey, [IntToString(exitCode)])
    ensures r.level == Level.Warn <==> exitCode != 0
    ensures r.level == Level.Info <==> exitCode == 0
  {
    var text := MessageText(FinishKey, [IntToString(exitCode)]);
    if exitCode != 0 then Entry(Level.Warn, text) else Entry(Level.Info, text)
  }

  /** What the goal logs from the start of the run on. */
  function RunLog(commandLine: string, run: ProcessRun): (r: seq<Entry>)
    ensures |r| >= 1 && r[0] == Entry(Level.Info, MessageText(StartKey, [commandLine]))
    ensures run.Failed? ==> |r| == 1
    ensures run.Exited? ==> r[1..] == Logged(run.output) + [FinishEntry(run.exitCode)]
  {
    [Entry(Level.Info, MessageText(StartKey, [commandLine]))] +
    match run
    case Failed(_) => []
    case Exited(exitCode, output) => Logged(output) + [FinishEntry(exitCode)]
  }

  /** The warning that ends the package-file copy after a failure. */
  function CopyWarning(source: Path, target: Path, message: string): Entry {
    Entry(Level.Warn, MessageText(ErrorWhileCopyingKey, [source, target, message]))
  }

  // ---------------------------------------------------------------------
  // Properties of the command line

  /** An argument without a space is shown as it is, one with a space in
      quotes, and reading it back gives the argument. */
  lemma QuotedRoundTrip(arg: string)
    ensures ' ' !in arg ==> Quoted(arg) == arg
    ensures ' ' in arg ==> Quoted(arg) == "\"" + arg + "\""
    ensures Unquoted(Quoted(arg)) == arg
  {
    ContainsChar(arg, ' ');
    if ' ' in arg {
      var q := "\"" + arg + "\"";
      assert q[1..|q| - 1] == arg;
      var i :| 0 <= i < |arg| && arg[i] == ' ';
      assert q[i + 1] == ' ';
    }
  }

  /** Without spaces, the command line splits at its spaces into the
      arguments. */
  lemma CommandLineSplits(args: seq<string>)
    requires |args| >= 1 && args[|args| - 1] != ""
    requires forall k :: 0 <= k < |args| ==> ' ' !in args[k]
    ensures Split(CommandLine(args), ' ') == args
  {
    var shown := seq(|args|, i requires 0 <= i < |args| => Quoted(args[i]));
    forall k | 0 <= k < |args|
      ensures shown[k] == args[k]
    {
      QuotedRoundTrip(args[k]);
    }
    assert shown == args;
    SplitJoin(args, ' ');
  }

  /** The class path splits at the path separator into the staged paths,
      in staging order, when no path holds the separator and the last is
      not empty. */
  lemma ClasspathSplits(deps: seq<AbstractJetMojo.Dependency>, pathSep: char)
    requires |deps| >= 1 && deps[|deps| - 1].dependency != ""
    requires forall k :: 0 <= k < |deps| ==> pathSep !in deps[k].dependency
    ensures Split(Classpath(deps, pathSep), pathSep) == JetMojo.DependencyPaths(deps)
  {
    SplitJoin(JetMojo.DependencyPaths(deps), pathSep);
  }

  /** A JVM argument without `$(Root)` is passed unchanged; in one with it,
      the leftmost occurrence is replaced and the rest is substituted in
      turn. */
  lemma RootMacroReplaced(jvmArgs: seq<string>, root: Path, i: nat, n: nat)
    requires i < |jvmArgs|
    ensures !Contains(jvmArgs[i], RootMacro) ==> RootSubstituted(jvmArgs, root)[i] == jvmArgs[i]
    ensures n + |RootMacro| <= |jvmArgs[i]| && NoMatchBefore(jvmArgs[i], RootMacro, n) &&
            MatchAt(jvmArgs[i], RootMacro, n) ==>
      RootSubstituted(jvmArgs, root)[i] ==
        jvmArgs[i][..n] + root + Replace(jvmArgs[i][n + |RootMacro|..], RootMacro, root)
  {
    var a := jvmArgs[i];
    assert RootSubstituted(jvmArgs, root)[i] == Replace(a, RootMacro, root);
    if !Contains(a, RootMacro) {
      ReplaceAbsent(a, RootMacro, root);
    }
    if n + |RootMacro| <= |a| && NoMatchBefore(a, RootMacro, n) && MatchAt(a, RootMacro, n) {
      ReplaceLeftmost(a, RootMacro, root, n);
    }
  }

  // ---------------------------------------------------------------------
  // The goal

  /** The tree `cur` after copyExtraPackageFiles and the mkdir of the
      profile directory, from the staged tree `s`: outside the build
      directory every staged entry is kept and only the profile directory
      and missing directories above it are added; without a package files
      directory only that mkdir happens. */
  ghost predicate AfterPackageFiles(s: Tree, cur: Tree, denied: set<Path>, now: int, sep: char, buildDir: Path,
                                    packageFilesDir: Path, profilesDir: Path) {
    (packageFilesDir !in s ==> cur == MadeDirs(s, denied, now, sep, profilesDir).tree) &&
    forall k {:trigger Utils.Lookup(cur, k)} :: !Covers(buildDir, k, sep) ==>
      Utils.Lookup(cur, k) == Utils.Lookup(s, k) ||
      (k !in s && Utils.Lookup(cur, k) == Some(Node(Directory, now, [], false)) && Covers(k, profilesDir, sep))
  }

  /** The mkdir of the profile directory after a mirror that changed
      nothing outside the build directory gives AfterPackageFiles. */
  lemma ProfilesMadeAfterMirror(s: Tree, mid: Tree, denied: set<Path>, now: int, sep: char, buildDir: Path,
                                packageFilesDir: Path, profilesDir: Path)
    requires forall k :: !Covers(buildDir, k, sep) ==> Utils.Lookup(mid, k) == Utils.Lookup(s, k)
    requires packageFilesDir !in s ==> mid == s
    ensures AfterPackageFiles(s, MadeDirs(mid, denied, now, sep, profilesDir).tree, denied, now, sep, buildDir,
                              packageFilesDir, profilesDir)
  {
    var cur := MadeDirs(mid, denied, now, sep, profilesDir).tree;
    forall k | !Covers(buildDir, k, sep)
      ensures Utils.Lookup(cur, k) == Utils.Lookup(s, k) ||
              (k !in s && Utils.Lookup(cur, k) == Some(Node(Directory, now, [], false)) && Covers(k, profilesDir, sep))
    {
      assert Utils.Lookup(mid, k) == Utils.Lookup(s, k);
    }
  }

  class TestRunMojo {
    const project: JetMojoSettings.Project
    const params: Parameters
    const log: Log

    constructor (project: JetMojoSettings.Project, params: Parameters, log: Log)
      ensures this.project == project && this.params == params && this.log == log
    {
      this.project := project;
      this.params := params;
      this.log := log;
    }

    function BuildDir(sep: char): Path {
      Child(params.jetOutputDir, sep, AbstractJetMojo.BuildDirName)
    }

    /** createBuildDir and copyDependencies: the tree and the staged
        dependencies, or the failure that stops the goal. */
    function StagedBuild(t: Tree, denied: set<Path>, now: int, sep: char): (r: AbstractJetMojo.Staged)
      ensures BuildDir(sep) !in MadeDirs(t, denied, now, sep, BuildDir(sep)).tree ==>
        r == AbstractJetMojo.Staged(MadeDirs(t, denied, now, sep, BuildDir(sep)).tree,
                                    Failure(MojoExecutionException(AbstractJetMojo.DirCreateErrorKey, [BuildDir(sep)])))
      ensures r.outcome.Success? ==>
        |r.outcome.value| >= 1 &&
        r.outcome.value[0] == AbstractJetMojo.Dependency(FileName(params.mainJar, sep), false)
    {
      var buildDir := BuildDir(sep);
      var t1 := MadeDirs(t, denied, now, sep, buildDir).tree;
      if buildDir !in t1 then
        AbstractJetMojo.Staged(t1, Failure(MojoExecutionException(AbstractJetMojo.DirCreateErrorKey, [buildDir])))
      else
        AbstractJetMojo.MainJarFirst(AbstractJetMojo.IfMissingOrChanged, AbstractJetMojo.LibDirName + [sep], t1, denied,
                                     now, sep, buildDir, params.mainJar, project.artifacts, project.groupId);
        AbstractJetMojo.CopyDependenciesSpec(AbstractJetMojo.IfMissingOrChanged, AbstractJetMojo.LibDirName + [sep],
                                             t1, denied, now, sep, buildDir, params.mainJar, project.artifacts,
                                             project.groupId)
    }

    /** The launch of `xjava` for a staging outcome. */
    function Launch(h: Host, home: Path, deps: seq<AbstractJetMojo.Dependency>, is64bit: bool,
                    jvmArgs: seq<string>, mainClass: string): (r: JetMojo.Invocation)
      ensures r.home == home && r.tool == XJava.XJavaName && r.workDir == BuildDir(h.sep)
    {
      var profiles := NewTestRunExecProfiles(params.execProfilesDir, h.sep, params.execProfilesName);
      JetMojo.Invocation(home, XJava.XJavaName,
                         TestRunArgs(h, profiles, is64bit, RootSubstituted(jvmArgs, h.AbsolutePath(BuildDir(h.sep))),
                                     Classpath(deps, h.pathSep), mainClass),
                         BuildDir(h.sep))
    }

    /** execute: the checks, the staging, the package files, the profile
        directory, then one run of the application under `xjava`. A run
        that exits, whatever its exit code, ends the goal normally; only a
        run that cannot start fails it. */
    method Execute(h: Host, fs: FileSystem, is64bit: Result<bool, string>, world: JetMojo.World,
                   launch: JetMojo.Invocation -> JetMojo.ToolRun)
      returns (r: Option<MojoException>)
      requires h.sep == fs.sep && h.tree == fs.tree
      requires !Covers(params.packageFilesDir, BuildDir(fs.sep), fs.sep) &&
               !Covers(BuildDir(fs.sep), params.packageFilesDir, fs.sep)
      modifies log, fs, world
      ensures var p := AbstractJetMojo.Prerequisites(h, params.mainJar, project.packaging, params.mainClass,
                                                     params.jetHome);
        p.Failure? ==> r == Some(p.error) && fs.tree == old(fs.tree) && world.launched == old(world.launched)
      ensures var s := StagedBuild(old(fs.tree), fs.denied, fs.now, fs.sep);
        AbstractJetMojo.Prerequisites(h, params.mainJar, project.packaging, params.mainClass, params.jetHome).Success? &&
        s.outcome.Failure? ==>
          r == Some(s.outcome.error) && fs.tree == s.tree && world.launched == old(world.launched)
      ensures |old(world.launched)| <= |world.launched| <= |old(world.launched)| + 1 &&
              world.launched[..|old(world.launched)|] == old(world.launched)
      ensures |world.launched| > |old(world.launched)| ==>
        var p := AbstractJetMojo.Prerequisites(h, params.mainJar, project.packaging, params.mainClass,
                                               params.jetHome);
        var s := StagedBuild(old(fs.tree), fs.denied, fs.now, fs.sep);
        var inv := world.launched[|old(world.launched)|];
        var t := launch(inv);
        p.Success? && s.outcome.Success? && is64bit.Success? && params.jvmArgs.Some? && params.mainClass.Some? &&
        inv == Launch(h, p.value, s.outcome.value, is64bit.value, params.jvmArgs.value, params.mainClass.value) &&
        LogEndsWith(log.entries, RunLog(CommandLine([XJavaExecutable(h, p.value)] + inv.args), t.run)) &&
        (t.run.Failed? ==> r == Some(MojoFailureException(t.run.message, []))) &&
        (t.run.Exited? ==> r.None? && forall k :: k in t.writes ==> k in fs.tree && fs.tree[k] == t.writes[k])
      ensures r.None? ==> |world.launched| > |old(world.launched)|
    {
      var home := AbstractJetMojo.CheckPrerequisites(h, log, params.mainJar, project.packaging, params.mainClass,
                                                     params.jetHome);
      if home.Failure? {
        return Some(home.error);
      }
      r := StageAndRun(h, fs, home.value, is64bit, world, launch);
    }

    /** execute after the checks: the file work, then the run under
        `xjava` from the JET home `home`. */
    method StageAndRun(h: Host, fs: FileSystem, home: Path, is64bit: Result<bool, string>, world: JetMojo.World,
                       launch: JetMojo.Invocation -> JetMojo.ToolRun)
      returns (r: Option<MojoException>)
      requires h.sep == fs.sep && params.mainClass.Some?
      requires !Covers(params.packageFilesDir, BuildDir(fs.sep), fs.sep) &&
               !Covers(BuildDir(fs.sep), params.packageFilesDir, fs.sep)
      modifies log, fs, world
      ensures var s := StagedBuild(old(fs.tree), fs.denied, fs.now, fs.sep);
        s.outcome.Failure? ==>
          r == Some(s.outcome.error) && fs.tree == s.tree && world.launched == old(world.launched)
      ensures |old(world.launched)| <= |world.launched| <= |old(world.launched)| + 1 &&
              world.launched[..|old(world.launched)|] == old(world.launched)
      ensures |world.launched| > |old(world.launched)| ==>
        var s := StagedBuild(old(fs.tree), fs.denied, fs.now, fs.sep);
        var inv := world.launched[|old(world.launched)|];
        var t := launch(inv);
        s.outcome.Success? && is64bit.Success? && params.jvmArgs.Some? &&
        inv == Launch(h, home, s.outcome.value, is64bit.value, params.jvmArgs.value, params.mainClass.value) &&
        LogEndsWith(log.entries, RunLog(CommandLine([XJavaExecutable(h, home)] + inv.args), t.run)) &&
        (t.run.Failed? ==> r == Some(MojoFailureException(t.run.message, []))) &&
        (t.run.Exited? ==> r.None? && forall k :: k in t.writes ==> k in fs.tree && fs.tree[k] == t.writes[k])
      ensures r.None? ==> |world.launched| > |old(world.launched)|
    {
      var deps := Prepare(fs);
      if deps.Failure? {
        return Some(deps.error);
      }
      r := RunStaged(h, fs, home, deps.value, is64bit, world, launch);
    }

    /** The run once the files are staged: a failed bitness check stops
        the goal before anything is launched. */
    method RunStaged(h: Host, fs: FileSystem, home: Path, deps: seq<AbstractJetMojo.Dependency>,
                     is64bit: Result<bool, string>, world: JetMojo.World, launch: JetMojo.Invocation -> JetMojo.ToolRun)
      returns (r: Option<MojoException>)
      requires h.sep == fs.sep && params.mainClass.Some?
      modifies log, fs, world
      ensures is64bit.Failure? ==>
        r == Some(MojoFailureException(is64bit.error, [])) && world.launched == old(world.launched)
      ensures |old(world.launched)| <= |world.launched| <= |old(world.launched)| + 1 &&
              world.launched[..|old(world.launched)|] == old(world.launched)
      ensures |world.launched| > |old(world.launched)| ==>
        var inv := world.launched[|old(world.launched)|];
        var t := launch(inv);
        is64bit.Success? && params.jvmArgs.Some? &&
        inv == Launch(h, home, deps, is64bit.value, params.jvmArgs.value, params.mainClass.value) &&
        LogEndsWith(log.entries, RunLog(CommandLine([XJavaExecutable(h, home)] + inv.args), t.run)) &&
        (t.run.Failed? ==> r == Some(MojoFailureException(t.run.message, []))) &&
        (t.run.Exited? ==> r.None? && forall k :: k in t.writes ==> k in fs.tree && fs.tree[k] == t.writes[k])
      ensures r.None? ==> |world.launched| > |old(world.launched)|
    {
      if is64bit.Failure? {
        return Some(MojoFailureException(is64bit.error, []));
      }
      r := Run(h, fs, home, deps, is64bit.value, world, launch);
    }

    /** The file work before the run: createBuildDir, copyDependencies,
        copyExtraPackageFiles when the package files directory exists,
        and mkdir of the profile directory. */
    method Prepare(fs: FileSystem) returns (r: Result<seq<AbstractJetMojo.Dependency>, MojoException>)
      requires !Covers(params.packageFilesDir, BuildDir(fs.sep), fs.sep) &&
               !Covers(BuildDir(fs.sep), params.packageFilesDir, fs.sep)
      modifies fs, log
      ensures var s := StagedBuild(old(fs.tree), fs.denied, fs.now, fs.sep);
        (s.outcome.Failure? ==> r == Failure(s.outcome.error) && fs.tree == s.tree && log.entries == old(log.entries)) &&
        (r.Success? ==> s.outcome == Success(r.value)) &&
        (r.Failure? && s.outcome.Success? ==>
          r == Failure(MojoExecutionException(AbstractJetMojo.DirCreateErrorKey, [params.execProfilesDir])))
      ensures var s := StagedBuild(old(fs.tree), fs.denied, fs.now, fs.sep);
        s.outcome.Success? ==>
          (r.Success? <==> params.execProfilesDir in fs.tree) &&
          (params.packageFilesDir !in s.tree ==> log.entries == old(log.entries)) &&
          AfterPackageFiles(s.tree, fs.tree, fs.denied, fs.now, fs.sep, BuildDir(fs.sep), params.packageFilesDir,
                            params.execProfilesDir)
      ensures var s := StagedBuild(old(fs.tree), fs.denied, fs.now, fs.sep);
        s.outcome.Success? && params.packageFilesDir in s.tree ==>
          if Utils.MirrorSucceeds(s.tree, fs.denied, fs.now, params.packageFilesDir, BuildDir(fs.sep), fs.sep, true)
          then log.entries == old(log.entries) &&
               Utils.Mirrored(fs.tree, s.tree, fs.denied, params.packageFilesDir, BuildDir(fs.sep), fs.sep)
          else exists message ::
                 log.entries == old(log.entries) + [CopyWarning(params.packageFilesDir, BuildDir(fs.sep), message)]
    {
      var buildDir := BuildDir(fs.sep);
      var made := AbstractJetMojo.Mkdir(fs, buildDir);
      if made.Fail? {
        return Failure(made.error);
      }
      var deps := AbstractJetMojo.CopyDependencies(fs, buildDir, params.mainJar, project.artifacts, project.groupId);
      if deps.Failure? {
        return deps;
      }
      ghost var staged := fs.tree;
      if fs.Exists(params.packageFilesDir) {
        CopyExtraPackageFiles(fs, buildDir);
        if Utils.MirrorSucceeds(staged, fs.denied, fs.now, params.packageFilesDir, buildDir, fs.sep, true) {
          Utils.MirroredAllIsMirrored(fs.tree, staged, fs.denied, fs.now, params.packageFilesDir, buildDir, fs.sep, true);
        }
      }
      ghost var mirrored := fs.tree;
      var profilesDir := AbstractJetMojo.Mkdir(fs, params.execProfilesDir);
      ProfilesMadeAfterMirror(staged, mirrored, fs.denied, fs.now, fs.sep, buildDir, params.packageFilesDir,
                              params.execProfilesDir);
      if params.packageFilesDir in staged &&
         Utils.MirrorSucceeds(staged, fs.denied, fs.now, params.packageFilesDir, buildDir, fs.sep, true) {
        Utils.MirroredGrows(mirrored, fs.tree, staged, fs.denied, params.packageFilesDir, buildDir, fs.sep);
      }
      if profilesDir.Fail? {
        return Failure(profilesDir.error);
      }
      r := deps;
    }

    /** copyExtraPackageFiles: the package files directory is mirrored into
        the build directory. A file is copied, with its attributes, only
        when its copy is missing or has another modification time; an
        entry that cannot be read is skipped; any other failure ends the
        copy with a warning and the goal goes on. */
    method CopyExtraPackageFiles(fs: FileSystem, buildDir: Path)
      requires !Covers(params.packageFilesDir, buildDir, fs.sep) && !Covers(buildDir, params.packageFilesDir, fs.sep)
      modifies fs, log
      ensures forall k :: !Covers(buildDir, k, fs.sep) ==> Utils.Lookup(fs.tree, k) == Utils.Lookup(old(fs.tree), k)
      ensures Utils.MirrorSucceeds(old(fs.tree), fs.denied, fs.now, params.packageFilesDir, buildDir, fs.sep, true) ==>
        log.entries == old(log.entries) &&
        Utils.MirroredAll(fs.tree, old(fs.tree), fs.denied, fs.now, params.packageFilesDir, buildDir, fs.sep, true,
                          Utils.Walk(old(fs.tree), fs.denied, params.packageFilesDir, fs.sep))
      ensures !Utils.MirrorSucceeds(old(fs.tree), fs.denied, fs.now, params.packageFilesDir, buildDir, fs.sep, true) ==>
        exists message :: log.entries == old(log.entries) + [CopyWarning(params.packageFilesDir, buildDir, message)]
    {
      ghost var t := fs.tree;
      var copied := Utils.MirrorDirectory(fs, params.packageFilesDir, buildDir, true);
      if copied.Fail? {
        log.Warn(MessageText(ErrorWhileCopyingKey, [params.packageFilesDir, buildDir, copied.error.path]));
        assert log.entries == old(log.entries) + [CopyWarning(params.packageFilesDir, buildDir, copied.error.path)];
      } else if params.packageFilesDir !in t {
        assert Utils.Walk(t, fs.denied, params.packageFilesDir, fs.sep) == {};
      }
    }

    /** The run: `xjava` with the profile options, the JVM arguments with
        `$(Root)` substituted, the class path and the main class, started
        in the build directory after its command line is logged. */
    method Run(h: Host, fs: FileSystem, home: Path, deps: seq<AbstractJetMojo.Dependency>, is64bit: bool,
               world: JetMojo.World, launch: JetMojo.Invocation -> JetMojo.ToolRun)
      returns (r: Option<MojoException>)
      requires h.sep == fs.sep && params.mainClass.Some?
      modifies log, fs, world
      ensures params.jvmArgs.None? ==>
        r == Some(Unchecked(NullPointerException)) && world.launched == old(world.launched)
      ensures params.jvmArgs.Some? ==>
        var inv := Launch(h, home, deps, is64bit, params.jvmArgs.value, params.mainClass.value);
        var t := launch(inv);
        world.launched == old(world.launched) + [inv] &&
        log.entries == old(log.entries) + RunLog(CommandLine([XJavaExecutable(h, home)] + inv.args), t.run) &&
        (t.run.Failed? ==> r == Some(MojoFailureException(t.run.message, [])) && fs.tree == old(fs.tree)) &&
        (t.run.Exited? ==> r.None? && fs.tree == old(fs.tree) + t.writes)
    {
      if params.jvmArgs.None? {
        // Stream.of on the null array
        return Some(Unchecked(NullPointerException));
      }
      var args := CommandArgs(h, home, deps, is64bit, params.jvmArgs.value);
      var inv := Launch(h, home, deps, is64bit, params.jvmArgs.value, params.mainClass.value);
      var commandLine := CommandLine(args);
      log.Info(MessageText(StartKey, [commandLine]));
      world.launched := world.launched + [inv];
      var t := launch(inv);
      ghost var log0 := old(log.entries);
      match t.run
      case Failed(message) =>
        r := Some(MojoFailureException(message, []));
      case Exited(exitCode, output) =>
        LogOutput(log, output);
        fs.tree := fs.tree + t.writes;
        var finish := MessageText(FinishKey, [IntToString(exitCode)]);
        if exitCode != 0 {
          log.Warn(finish);
        } else {
          log.Info(finish);
        }
        RunLogAppended(log0, commandLine, t.run);
        r := None;
    }

    /** The arguments of the XJava tool as the goal assembles them: the
        executable, then the arguments of the launch. */
    method CommandArgs(h: Host, home: Path, deps: seq<AbstractJetMojo.Dependency>, is64bit: bool,
                       jvmArgs: seq<string>) returns (args: seq<string>)
      requires params.mainClass.Some?
      ensures args == [XJavaExecutable(h, home)] + Launch(h, home, deps, is64bit, jvmArgs, params.mainClass.value).args
    {
      var buildDir := BuildDir(h.sep);
      var profiles := NewTestRunExecProfiles(params.execProfilesDir, h.sep, params.execProfilesName);
      var xjava := new XJava.XJava(XJavaExecutable(h, home), []);
      var _ := xjava.AddTestRunArgs(h, profiles, is64bit);
      var jvm := RootSubstituted(jvmArgs, h.AbsolutePath(buildDir));
      var _ := xjava.AddArgs(jvm);
      var classpath := Classpath(deps, h.pathSep);
      var _ := xjava.Arg("-cp");
      var _ := xjava.Arg(classpath);
      var _ := xjava.Arg(params.mainClass.value);
      ArgsAssembled(XJavaExecutable(h, home), XJava.TestRunArgs(h, profiles, is64bit), jvm, classpath,
                    params.mainClass.value);
      args := xjava.args;
    }
  }

  /** The arguments added one at a time are the launch's arguments after
      the executable. */
  lemma ArgsAssembled(exe: string, profileArgs: seq<string>, jvm: seq<string>, classpath: string, mainClass: string)
    ensures [exe] + [] + profileArgs + jvm + ["-cp"] + [classpath] + [mainClass] ==
            [exe] + (profileArgs + jvm + ["-cp", classpath, mainClass])
  {
  }

  /** The entries the run appends one at a time make up its log. */
  lemma RunLogAppended(log0: seq<Entry>, commandLine: string, run: ProcessRun)
    requires run.Exited?
    ensures log0 + [Entry(Level.Info, MessageText(StartKey, [commandLine]))] + Logged(run.output) +
            [FinishEntry(run.exitCode)] == log0 + RunLog(commandLine, run)
  {
  }
}
