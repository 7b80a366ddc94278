/** com.excelsior.jet.maven.plugin.JetMojo, the plugin's first `build`
    goal: it checks the main jar, the main class and the JET home, makes
    the build directories and empties the package directory, stages the
    main jar and the runtime artifacts, compiles with the AOT compiler,
    packs the executable with the packager into a self-contained
    directory, and zips that directory when asked to. */
module LegacyJetMojo {
  import opened Wrappers
  import opened JavaLang
  import opened Files
  import opened Host
  import opened Mojo
  import opened Logging
  import opened CmdLineTool
  import AbstractJetMojo
  import JetMojoSettings
  import Jet = JetMojo
  import LegacyUtils
  import Utils

  const PackageDirName: string := "app"
  const MainJarNotFoundErrorKey: string := "JetMojo.MainJarNotFound.Error"
  /** Staged artifacts are recorded below `lib` with a forward slash,
      whatever the host's separator. */
  const LibRecordPrefix: string := "lib/"

  /** The part of the Maven project the goal reads: the build directory,
      the final name, the group and the resolved runtime artifacts. */
  datatype Project = Project(buildDirectory: Path, finalName: string, groupId: string,
                             artifacts: seq<AbstractJetMojo.Artifact>)

  /** The goal's parameters that it never reassigns. */
  datatype Parameters = Parameters(jetOutputDir: Path, icon: Path, hideConsole: bool, zipOutput: bool)

  /** The jar the project's own build produced. */
  function MainJar(sep: char, project: Project): Path {
    Child(project.buildDirectory, sep, project.finalName + ".jar")
  }

  function BuildDir(sep: char, jetOutputDir: Path): Path {
    Child(jetOutputDir, sep, AbstractJetMojo.BuildDirName)
  }

  function LibDir(sep: char, jetOutputDir: Path): Path {
    Child(BuildDir(sep, jetOutputDir), sep, AbstractJetMojo.LibDirName)
  }

  function PackageDir(sep: char, jetOutputDir: Path): Path {
    Child(jetOutputDir, sep, PackageDirName)
  }

  /** The checks before any file is touched, first failure first: the
      main jar must exist, the main class must be given, and the JET home
      (whose construction is an input here, with its exception's message
      as the failure) must be valid. */
  function Prerequisites(jarExists: bool, mainClass: Option<string>, home: Result<Path, string>)
    : (r: Result<Path, MojoException>)
    ensures !jarExists ==> r == Failure(MojoFailureException(AbstractJetMojo.MainJarNotFoundKey, []))
    ensures jarExists && Utils.IsEmpty(mainClass) ==>
      r == Failure(MojoFailureException(AbstractJetMojo.MainNotSpecifiedKey, []))
    ensures r.Success? <==> jarExists && !Utils.IsEmpty(mainClass) && home.Success?
    ensures r.Success? ==> r.value == home.value
  {
    if !jarExists then Failure(MojoFailureException(AbstractJetMojo.MainJarNotFoundKey, []))
    else if Utils.IsEmpty(mainClass) then Failure(MojoFailureException(AbstractJetMojo.MainNotSpecifiedKey, []))
    else if home.Failure? then Failure(MojoFailureException(home.error, []))
    else Success(home.value)
  }

  /** The tree once the build and `lib` directories are made with
      File.mkdirs (a directory that cannot be made is ignored) and the
      package directory emptied. */
  ghost function Prepared(t: Tree, denied: set<Path>, now: int, sep: char, jetOutputDir: Path): Tree {
    var made := MadeDirs(MadeDirs(t, denied, now, sep, BuildDir(sep, jetOutputDir)).tree, denied, now, sep,
                         LibDir(sep, jetOutputDir)).tree;
    LegacyUtils.Cleaned(made, denied, PackageDir(sep, jetOutputDir), sep)
  }

  /** How the runtime artifacts are staged: copied into `lib` only when
      missing, and recorded as `lib/` and their name. */
  function LibStage(sep: char, jetOutputDir: Path, groupId: string): AbstractJetMojo.Stage {
    AbstractJetMojo.Stage(AbstractJetMojo.IfMissing, LibDir(sep, jetOutputDir), LibRecordPrefix, groupId)
  }

  /** The staging of the goal, with the main jar copied under
      `mainPolicy`: the main jar into the build directory, recorded first by
      its name, then the artifacts that are regular files. The first failed
      copy stops it with one MojoExecutionException. */
  function StagingSpec(mainPolicy: AbstractJetMojo.Policy, t: Tree, denied: set<Path>, now: int, sep: char,
                       jetOutputDir: Path, jar: Path, arts: seq<AbstractJetMojo.Artifact>, groupId: string)
    : (r: AbstractJetMojo.Staged)
    ensures r.outcome.Success? ==>
      |r.outcome.value| >= 1 && r.outcome.value[0] == AbstractJetMojo.Dependency(FileName(jar, sep), false)
    ensures r.outcome.Failure? ==>
      r.outcome.error == MojoExecutionException(AbstractJetMojo.ErrorCopyingDependencyKey, [])
  {
    var main := Child(BuildDir(sep, jetOutputDir), sep, FileName(jar, sep));
    match AbstractJetMojo.CopyEffect(mainPolicy, t, denied, now, jar, main)
    case Failure(_) =>
      AbstractJetMojo.Staged(t, Failure(MojoExecutionException(AbstractJetMojo.ErrorCopyingDependencyKey, [])))
    case Success(e) =>
      var s := AbstractJetMojo.StageArtifacts(LibStage(sep, jetOutputDir, groupId), Utils.Apply(t, main, e),
                                              denied, now, sep, arts);
      AbstractJetMojo.Staged(s.tree, match s.outcome
                                     case None =>
                                       Failure(MojoExecutionException(AbstractJetMojo.ErrorCopyingDependencyKey, []))
                                     case Some(deps) =>
                                       Success([AbstractJetMojo.Dependency(FileName(jar, sep), false)] + deps))
  }

  /** The output name when none is given: the simple name of the main
      class. */
  function DefaultOutputName(mainClass: string): (r: string)
    ensures '/' !in r && '.' !in r
  {
    FileName(JetMojoSettings.MainClassPath(mainClass), '/')
  }

  /** The compiler's arguments: the staged files, the Windows options, then
      the main class, the output name and the decoration option. */
  function CompilerArgs(osName: string, deps: seq<string>, iconIsFile: bool, icon: Path, hideConsole: bool,
                        mainClass: string, outputName: string): seq<string>
  {
    deps + JetMojoSettings.WindowsOptions(osName, iconIsFile, icon, hideConsole) +
    ["-main=" + mainClass, "-outputname=" + outputName, "-decor=ht"]
  }

  /** The packager's arguments: the executable added at the package root,
      and the package directory as the target. */
  function PackagerArgs(osName: string, outputName: string, packageDir: Path): seq<string> {
    ["-add-file", Utils.MangleExeName(osName, outputName), "/", "-target", packageDir]
  }

  /** What the goal logs once both tools succeeded and the archive, when
      asked for, was written. */
  function SuccessLog(zipOutput: bool, zipTarget: Path, packageDir: Path): seq<Entry> {
    if zipOutput then
      [Entry(Level.Info, MessageText(Jet.ZipAppInfoKey, [])), Entry(Level.Info, MessageText(Jet.BuildSuccessKey, [])),
       Entry(Level.Info, MessageText(Jet.GetZipInfoKey, [zipTarget]))]
    else
      [Entry(Level.Info, MessageText(Jet.BuildSuccessKey, [])), Entry(Level.Info, MessageText(Jet.GetDirInfoKey, [packageDir]))]
  }

  class JetMojo {
    const project: Project
    const params: Parameters
    const log: Log
    var mainClass: Option<string>
    var outputName: Option<string>

    constructor (project: Project, params: Parameters, log: Log, mainClass: Option<string>, outputName: Option<string>)
      ensures this.project == project && this.params == params && this.log == log
      ensures this.mainClass == mainClass && this.outputName == outputName
    {
      this.project := project;
      this.params := params;
      this.log := log;
      this.mainClass := mainClass;
      this.outputName := outputName;
    }

    /** The three checks: a missing main jar is also logged as an error
        with its absolute path. */
    method CheckPrerequisites(h: Host, fs: FileSystem, home: Result<Path, string>)
      returns (r: Result<Path, MojoException>)
      modifies log
      ensures r == Prerequisites(MainJar(fs.sep, project) in fs.tree, mainClass, home)
      ensures log.entries == old(log.entries) +
        if MainJar(fs.sep, project) in fs.tree then []
        else [Entry(Level.Error, MessageText(MainJarNotFoundErrorKey, [h.AbsolutePath(MainJar(fs.sep, project))]))]
    {
      var jar := MainJar(fs.sep, project);
      if !fs.Exists(jar) {
        log.Error(MessageText(MainJarNotFoundErrorKey, [h.AbsolutePath(jar)]));
        return Failure(MojoFailureException(AbstractJetMojo.MainJarNotFoundKey, []));
      }
      if Utils.IsEmpty(mainClass) {
        return Failure(MojoFailureException(AbstractJetMojo.MainNotSpecifiedKey, []));
      }
      if home.Failure? {
        return Failure(MojoFailureException(home.error, []));
      }
      r := Success(home.value);
    }

    /** Makes the build and `lib` directories, ignoring whether that
        worked, and empties the package directory. */
    method Prepare(fs: FileSystem)
      modifies fs
      ensures fs.tree == Prepared(old(fs.tree), fs.denied, fs.now, fs.sep, params.jetOutputDir)
    {
      var madeBuild := fs.Mkdirs(BuildDir(fs.sep, params.jetOutputDir));
      var madeLib := fs.Mkdirs(LibDir(fs.sep, params.jetOutputDir));
      ghost var made := fs.tree;
      var packageDir := PackageDir(fs.sep, params.jetOutputDir);
      LegacyUtils.CleanDirectory(fs, packageDir);
      LegacyUtils.CleanedIs(made, fs.tree, fs.denied, packageDir, fs.sep);
    }

    /** Stages the main jar, copied only when missing, and the artifacts,
        and returns the compiler's file arguments. */
    method CopyDependencies(fs: FileSystem) returns (r: Result<seq<string>, MojoException>)
      modifies fs
      ensures var s := StagingSpec(AbstractJetMojo.IfMissing, old(fs.tree), fs.denied, fs.now, fs.sep,
                                   params.jetOutputDir, MainJar(fs.sep, project), project.artifacts, project.groupId);
        fs.tree == s.tree &&
        (s.outcome.Failure? ==> r == Failure(s.outcome.error)) &&
        (s.outcome.Success? ==> r == Success(Jet.DependencyPaths(s.outcome.value)))
    {
      var jar := MainJar(fs.sep, project);
      var main := Child(BuildDir(fs.sep, params.jetOutputDir), fs.sep, FileName(jar, fs.sep));
      var copied := AbstractJetMojo.ApplyCopy(fs, AbstractJetMojo.IfMissing, jar, main);
      if copied.Fail? {
        return Failure(MojoExecutionException(AbstractJetMojo.ErrorCopyingDependencyKey, []));
      }
      var rest := AbstractJetMojo.StageLoop(fs, LibStage(fs.sep, params.jetOutputDir, project.groupId),
                                            project.artifacts);
      if rest.None? {
        return Failure(MojoExecutionException(AbstractJetMojo.ErrorCopyingDependencyKey, []));
      }
      r := Success(Jet.DependencyPaths([AbstractJetMojo.Dependency(FileName(jar, fs.sep), false)] + rest.value));
    }

    /** Turns the main class into a path and names the output after its
        simple name when no name is given. */
    method Normalise()
      requires !Utils.IsEmpty(mainClass)
      modifies this
      ensures mainClass == Some(JetMojoSettings.MainClassPath(old(mainClass).value))
      ensures outputName == if old(outputName).None? then Some(DefaultOutputName(old(mainClass).value))
                            else old(outputName)
    {
      mainClass := Some(JetMojoSettings.MainClassPath(mainClass.value));
      if outputName.None? {
        outputName := Some(FileName(mainClass.value, '/'));
      }
    }

    /** One JET tool run: a run that could not start is logged as an error
        and ends the goal with the unexpected-error exception; a run that
        exited has its output logged and its files written, and a nonzero
        exit code ends the goal with the step's MojoFailureException. */
    method RunStep(fs: FileSystem, inv: Jet.Invocation, world: Jet.World,
                   launch: Jet.Invocation -> Jet.ToolRun, failureKey: string)
      returns (r: Option<MojoException>)
      modifies fs, log, world
      ensures world.launched == old(world.launched) + [inv] && world.archives == old(world.archives)
      ensures var t := launch(inv);
        t.run.Failed? ==>
          r == Some(MojoExecutionException(Jet.UnexpectedErrorKey, [])) && fs.tree == old(fs.tree) &&
          log.entries == old(log.entries) + [Entry(Level.Error, t.run.message)]
      ensures var t := launch(inv);
        t.run.Exited? ==>
          fs.tree == old(fs.tree) + t.writes && log.entries == old(log.entries) + Logged(t.run.output) &&
          (r.None? <==> t.run.exitCode == 0) &&
          (r.Some? ==> r.value == MojoFailureException(failureKey, []))
    {
      var failure := Jet.RunToolStep(log, fs, inv, world, launch, failureKey);
      if launch(inv).run.Failed? {
        log.Error(failure.value);
        return Some(MojoExecutionException(Jet.UnexpectedErrorKey, []));
      }
      if failure.Some? {
        return Some(MojoFailureException(failureKey, []));
      }
      r := None;
    }

    /** The last step: with `zipOutput`, the package directory is archived
        (its outcome is an input, an IOException's message when it
        failed) and the archive reported; otherwise the directory is. */
    method Finish(h: Host, sep: char, zipped: Option<string>) returns (r: Option<MojoException>)
      modifies log
      ensures r.None? <==> !params.zipOutput || zipped.None?
      ensures r.Some? ==>
        r == Some(MojoExecutionException(Jet.UnexpectedErrorKey, [])) &&
        log.entries == old(log.entries) +
          [Entry(Level.Info, MessageText(Jet.ZipAppInfoKey, [])), Entry(Level.Error, zipped.value)]
      ensures r.None? ==>
        log.entries == old(log.entries) +
          SuccessLog(params.zipOutput, h.AbsolutePath(Jet.ZipTarget(sep, params.jetOutputDir, project.finalName)),
                     h.AbsolutePath(PackageDir(sep, params.jetOutputDir)))
    {
      if params.zipOutput {
        log.Info(MessageText(Jet.ZipAppInfoKey, []));
        if zipped.Some? {
          log.Error(zipped.value);
          return Some(MojoExecutionException(Jet.UnexpectedErrorKey, []));
        }
        log.Info(MessageText(Jet.BuildSuccessKey, []));
        log.Info(MessageText(Jet.GetZipInfoKey, [h.AbsolutePath(Jet.ZipTarget(sep, params.jetOutputDir, project.finalName))]));
      } else {
        log.Info(MessageText(Jet.BuildSuccessKey, []));
        log.Info(MessageText(Jet.GetDirInfoKey, [h.AbsolutePath(PackageDir(sep, params.jetOutputDir))]));
      }
      r := None;
    }

    /** The compiler's launch for the staged files. */
    function CompileInvocation(h: Host, home: Path, tree: Tree, deps: seq<string>): Jet.Invocation
      requires mainClass.Some? && outputName.Some?
      reads this
    {
      Jet.Invocation(home, Jet.CompilerName,
                     CompilerArgs(h.osName, deps, IsFile(tree, params.icon), h.AbsolutePath(params.icon),
                                  params.hideConsole, mainClass.value, outputName.value),
                     BuildDir(h.sep, params.jetOutputDir))
    }

    /** The packager's launch. */
    function PackageInvocation(h: Host, home: Path): Jet.Invocation
      requires outputName.Some?
      reads this
    {
      Jet.Invocation(home, Jet.PackagerName,
                     PackagerArgs(h.osName, outputName.value, h.AbsolutePath(PackageDir(h.sep, params.jetOutputDir))),
                     BuildDir(h.sep, params.jetOutputDir))
    }

    /** Compiles, packs and finishes: the compiler runs first, the packager
        only after the compiler succeeded, and the last step only after
        the packager succeeded. */
    method BuildApp(h: Host, fs: FileSystem, home: Path, deps: seq<string>, world: Jet.World,
                    launch: Jet.Invocation -> Jet.ToolRun, zipped: Option<string>)
      returns (r: Option<MojoException>)
      requires h.sep == fs.sep && mainClass.Some? && outputName.Some?
      modifies fs, log, world
      ensures world.archives == old(world.archives)
      ensures |world.launched| == |old(world.launched)| + 1 || |world.launched| == |old(world.launched)| + 2
      ensures world.launched[..|old(world.launched)|] == old(world.launched)
      ensures world.launched[|old(world.launched)|] == CompileInvocation(h, home, old(fs.tree), deps)
      ensures var c := launch(CompileInvocation(h, home, old(fs.tree), deps)).run;
        |world.launched| == |old(world.launched)| + 2 <==> c.Exited? && c.exitCode == 0
      ensures |world.launched| == |old(world.launched)| + 2 ==>
        world.launched[|old(world.launched)| + 1] == PackageInvocation(h, home)
      ensures r.None? ==>
        |world.launched| == |old(world.launched)| + 2 &&
        launch(PackageInvocation(h, home)).run.Exited? && launch(PackageInvocation(h, home)).run.exitCode == 0 &&
        LogEndsWith(log.entries,
                    SuccessLog(params.zipOutput, h.AbsolutePath(Jet.ZipTarget(fs.sep, params.jetOutputDir, project.finalName)),
                               h.AbsolutePath(PackageDir(fs.sep, params.jetOutputDir))))
    {
      var compile := CompileInvocation(h, home, fs.tree, deps);
      r := RunStep(fs, compile, world, launch, Jet.BuildFailureKey);
      if r.Some? {
        return;
      }
      var pack := PackageInvocation(h, home);
      r := RunStep(fs, pack, world, launch, Jet.PackageFailureKey);
      if r.Some? {
        return;
      }
      r := Finish(h, fs.sep, zipped);
    }

    /** JetMojo.execute, with the main jar copied only when it is missing
        (see RestagingFailsAsWritten for the copy as written). */
    method Execute(h: Host, fs: FileSystem, home: Result<Path, string>, world: Jet.World,
                   launch: Jet.Invocation -> Jet.ToolRun, zipped: Option<string>)
      returns (r: Option<MojoException>)
      requires h.sep == fs.sep
      modifies this, log, fs, world
      ensures world.archives == old(world.archives)
      ensures |old(world.launched)| <= |world.launched| <= |old(world.launched)| + 2
      ensures world.launched[..|old(world.launched)|] == old(world.launched)
      ensures var pre := Prerequisites(MainJar(fs.sep, project) in old(fs.tree), old(mainClass), home);
        pre.Failure? ==>
          r == Some(pre.error) && fs.tree == old(fs.tree) && world.launched == old(world.launched)
      ensures var pre := Prerequisites(MainJar(fs.sep, project) in old(fs.tree), old(mainClass), home);
        var s := StagingSpec(AbstractJetMojo.IfMissing, Prepared(old(fs.tree), fs.denied, fs.now, fs.sep, params.jetOutputDir),
                             fs.denied, fs.now, fs.sep, params.jetOutputDir, MainJar(fs.sep, project),
                             project.artifacts, project.groupId);
        pre.Success? && s.outcome.Failure? ==>
          r == Some(s.outcome.error) && fs.tree == s.tree && world.launched == old(world.launched)
      ensures var pre := Prerequisites(MainJar(fs.sep, project) in old(fs.tree), old(mainClass), home);
        var s := StagingSpec(AbstractJetMojo.IfMissing, Prepared(old(fs.tree), fs.denied, fs.now, fs.sep, params.jetOutputDir),
                             fs.denied, fs.now, fs.sep, params.jetOutputDir, MainJar(fs.sep, project),
                             project.artifacts, project.groupId);
        pre.Success? && s.outcome.Success? ==>
          mainClass == Some(JetMojoSettings.MainClassPath(old(mainClass).value)) &&
          outputName == (if old(outputName).None? then Some(DefaultOutputName(old(mainClass).value)) else old(outputName)) &&
          |world.launched| > |old(world.launched)| &&
          world.launched[|old(world.launched)|] ==
            CompileInvocation(h, pre.value, s.tree, Jet.DependencyPaths(s.outcome.value))
      ensures r.None? ==>
        Prerequisites(MainJar(fs.sep, project) in old(fs.tree), old(mainClass), home).Success? &&
        |world.launched| == |old(world.launched)| + 2 &&
        world.launched[|old(world.launched)| + 1] == PackageInvocation(h, home.value)
    {
      var pre := CheckPrerequisites(h, fs, home);
      if pre.Failure? {
        return Some(pre.error);
      }
      Prepare(fs);
      ghost var prepared := fs.tree;
      var deps := CopyDependencies(fs);
      if deps.Failure? {
        return Some(deps.error);
      }
      Normalise();
      r := BuildApp(h, fs, pre.value, deps.value, world, launch, zipped);
    }
  }

  // ---------------------------------------------------------------------
  // Properties of the goal

  /** A main class in a package gives its simple name as the output name,
      and one in no package gives itself. */
  lemma OutputNameIsSimpleName(pkg: string, name: string)
    requires '.' !in name && '/' !in name
    ensures DefaultOutputName(pkg + "." + name) == name
    ensures DefaultOutputName(name) == name
  {
    var m := pkg + "." + name;
    var p := JetMojoSettings.MainClassPath(m);
    assert p[|pkg|] == '/';
    forall k | |pkg| < k < |p|
      ensures p[k] == name[k - |pkg| - 1]
    {
      assert m[k] == name[k - |pkg| - 1];
    }
    var i := LastIndexOf(p, '/');
    assert i == |pkg|;
    assert p[i + 1..] == name;
    var q := JetMojoSettings.MainClassPath(name);
    assert q == name;
    assert LastIndexOf(q, '/') == -1;
  }

  /** The build tree and the package directory do not overlap: emptying
      the package directory leaves the build directory alone. */
  lemma BuildTreeOutsidePackage(sep: char, jetOutputDir: Path, p: Path)
    requires Covers(BuildDir(sep, jetOutputDir), p, sep)
    ensures !Covers(PackageDir(sep, jetOutputDir), p, sep)
  {
    var b := BuildDir(sep, jetOutputDir);
    var a := PackageDir(sep, jetOutputDir);
    var i := |jetOutputDir| + 1;
    assert b[i] == 'b' && a[i] == 'a';
    assert p[i] == 'b' by {
      if p != b {
        assert p[..|b| + 1] == b + [sep];
        assert p[..|b| + 1][i] == p[i];
      }
    }
  }

  /** Preparing keeps every entry outside the package directory, and adds
      nothing but directories. */
  lemma PreparedKeeps(t: Tree, denied: set<Path>, now: int, sep: char, jetOutputDir: Path, p: Path)
    ensures p in t && !Covers(PackageDir(sep, jetOutputDir), p, sep) ==>
      p in Prepared(t, denied, now, sep, jetOutputDir) && Prepared(t, denied, now, sep, jetOutputDir)[p] == t[p]
    ensures IsFile(Prepared(t, denied, now, sep, jetOutputDir), p) ==>
      p in t && Prepared(t, denied, now, sep, jetOutputDir)[p] == t[p]
  {
  }

  /** On a fresh build, where the main jar has not been staged yet, the
      copy as written and the corrected copy stage the same. */
  lemma FreshBuildsAgree(t: Tree, denied: set<Path>, now: int, sep: char, jetOutputDir: Path, jar: Path,
                         arts: seq<AbstractJetMojo.Artifact>, groupId: string)
    requires Child(BuildDir(sep, jetOutputDir), sep, FileName(jar, sep)) !in t
    ensures StagingSpec(AbstractJetMojo.Always, t, denied, now, sep, jetOutputDir, jar, arts, groupId) ==
            StagingSpec(AbstractJetMojo.IfMissing, t, denied, now, sep, jetOutputDir, jar, arts, groupId)
  {
  }

  /** As written, the main jar is copied with Files.copy and no option, so
      a second build, run over the first one's output without a clean,
      finds the staged main jar in the build directory and fails to
      stage. */
  lemma RestagingFailsAsWritten(t: Tree, denied: set<Path>, now: int, sep: char, jetOutputDir: Path, jar: Path,
                                arts: seq<AbstractJetMojo.Artifact>, groupId: string)
    requires StagingSpec(AbstractJetMojo.Always, Prepared(t, denied, now, sep, jetOutputDir), denied, now, sep,
                         jetOutputDir, jar, arts, groupId).outcome.Success?
    ensures var first := StagingSpec(AbstractJetMojo.Always, Prepared(t, denied, now, sep, jetOutputDir), denied, now,
                                     sep, jetOutputDir, jar, arts, groupId);
      StagingSpec(AbstractJetMojo.Always, Prepared(first.tree, denied, now, sep, jetOutputDir), denied, now, sep,
                  jetOutputDir, jar, arts, groupId).outcome ==
        Failure(MojoExecutionException(AbstractJetMojo.ErrorCopyingDependencyKey, []))
  {
    var t0 := Prepared(t, denied, now, sep, jetOutputDir);
    var first := StagingSpec(AbstractJetMojo.Always, t0, denied, now, sep, jetOutputDir, jar, arts, groupId);
    var main := Child(BuildDir(sep, jetOutputDir), sep, FileName(jar, sep));
    var e := AbstractJetMojo.CopyEffect(AbstractJetMojo.Always, t0, denied, now, jar, main);
    assert e.Success? && e.value.Some?;
    var t1 := Utils.Apply(t0, main, e.value);
    AbstractJetMojo.StagingKeeps(LibStage(sep, jetOutputDir, groupId), t1, denied, now, sep, arts, main);
    assert main in first.tree;
    BuildTreeOutsidePackage(sep, jetOutputDir, main);
    PreparedKeeps(first.tree, denied, now, sep, jetOutputDir, main);
  }

  /** Corrected, with the main jar copied only when missing, a second
      build over the first one's output stages successfully and writes
      nothing, as long as no artifact lies in `lib` itself. */
  lemma RestagingSettles(t: Tree, denied: set<Path>, now: int, sep: char, jetOutputDir: Path, jar: Path,
                         arts: seq<AbstractJetMojo.Artifact>, groupId: string)
    requires AbstractJetMojo.OutsideLib(LibStage(sep, jetOutputDir, groupId), sep, arts)
    requires StagingSpec(AbstractJetMojo.IfMissing, Prepared(t, denied, now, sep, jetOutputDir), denied, now, sep,
                         jetOutputDir, jar, arts, groupId).outcome.Success?
    ensures var first := StagingSpec(AbstractJetMojo.IfMissing, Prepared(t, denied, now, sep, jetOutputDir), denied,
                                     now, sep, jetOutputDir, jar, arts, groupId);
      var t2 := Prepared(first.tree, denied, now, sep, jetOutputDir);
      var second := StagingSpec(AbstractJetMojo.IfMissing, t2, denied, now, sep, jetOutputDir, jar, arts, groupId);
      second.outcome.Success? && second.tree == t2
  {
    var c := LibStage(sep, jetOutputDir, groupId);
    var t0 := Prepared(t, denied, now, sep, jetOutputDir);
    var first := StagingSpec(AbstractJetMojo.IfMissing, t0, denied, now, sep, jetOutputDir, jar, arts, groupId);
    var main := Child(BuildDir(sep, jetOutputDir), sep, FileName(jar, sep));
    var e := AbstractJetMojo.CopyEffect(AbstractJetMojo.IfMissing, t0, denied, now, jar, main);
    var t1 := Utils.Apply(t0, main, e.value);
    assert main in t1;
    AbstractJetMojo.StagingKeeps(c, t1, denied, now, sep, arts, main);
    AbstractJetMojo.StagedTargetsExist(c, t1, denied, now, sep, arts);
    var t2 := Prepared(first.tree, denied, now, sep, jetOutputDir);
    BuildTreeOutsidePackage(sep, jetOutputDir, main);
    PreparedKeeps(first.tree, denied, now, sep, jetOutputDir, main);
    forall a | a in arts && IsFile(t2, a.file)
      ensures AbstractJetMojo.LibTarget(c, sep, a.file) in t2
    {
      PreparedKeeps(first.tree, denied, now, sep, jetOutputDir, a.file);
      AbstractJetMojo.StagingFrame(c, t1, denied, now, sep, arts, a.file);
      var to := AbstractJetMojo.LibTarget(c, sep, a.file);
      BuildTreeOutsidePackage(sep, jetOutputDir, to);
      PreparedKeeps(first.tree, denied, now, sep, jetOutputDir, to);
    }
    AbstractJetMojo.AllPresentIsNoOp(c, t2, denied, now, sep, arts);
  }
}
