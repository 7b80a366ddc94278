/** JetMojo (com.excelsiorjet.maven.plugin): the `build` goal. It checks and
    normalises its parameters, stages the dependencies into `build`, runs
    the JET compiler there, lays the application out in `app` with the
    packager, and finally archives that directory, wraps it into an
    Excelsior Installer, or leaves it as it is. The JET tools themselves
    are outside the model: each launch is recorded, and what it prints,
    how it exits and what it writes are inputs. */
module JetMojo {
  import opened Wrappers
  import opened JavaLang
  import opened Files
  import opened Host
  import opened Mojo
  import opened Logging
  import opened CmdLineTool
  import opened JetMojoSettings
  import JetEdition
  import JetHome
  import AbstractJetMojo
  import Utils

  const BuildFailureKey: string := "JetMojo.Build.Failure"
  const PackageFailureKey: string := "JetMojo.Package.Failure"
  const UnexpectedErrorKey: string := "JetMojo.Unexpected.Error"
  const ZipAppInfoKey: string := "JetMojo.ZipApp.Info"
  const BuildSuccessKey: string := "JetMojo.Build.Success"
  const GetZipInfoKey: string := "JetMojo.GetZip.Info"
  const GetEIInfoKey: string := "JetMojo.GetEI.Info"
  const GetDirInfoKey: string := "JetMojo.GetDir.Info"
  const AppDirName: string := "app"
  const CompilerName: string := "jc"
  const PackagerName: string := "xpack"

  /** One launch of a JET tool: the JET home it comes from, the tool, its
      arguments and the directory it runs in. */
  datatype Invocation = Invocation(home: Path, tool: string, args: seq<string>, workDir: Path)

  /** What a launch delivers: how the process ended, and the entries it
      wrote when it ran. */
  datatype ToolRun = ToolRun(run: ProcessRun, writes: Tree)

  /** A zip archive the goal wrote, and its entries. */
  datatype Archive = Archive(target: Path, entries: set<ZipEntry>)

  /** What the goal does outside the filesystem: the JET tools it
      launches and the zip archives it writes, in order. */
  class World {
    var launched: seq<Invocation>
    var archives: seq<Archive>

    constructor ()
      ensures launched == [] && archives == []
    {
      launched := [];
      archives := [];
    }
  }

  /** The tree and the log entries a step leaves, and the message of the
      exception that ends it, if any. */
  datatype Step = Step(tree: Tree, logged: seq<Entry>, failure: Option<string>)

  /** A launch through CmdLineTool.execute: a run that could not start
      raises CmdLineToolException and writes nothing; a run that exited
      has its output logged and its files written, and a nonzero exit code
      raises MojoFailureException with the step's message. */
  function ToolStep(t: ToolRun, tree: Tree, failureKey: string): (r: Step)
    ensures t.run.Failed? ==> r == Step(tree, [], Some(t.run.message))
    ensures t.run.Exited? ==> r.tree == tree + t.writes && r.logged == Logged(t.run.output)
    ensures t.run.Exited? ==> (r.failure.None? <==> t.run.exitCode == 0)
    ensures r.failure.Some? && t.run.Exited? ==> r.failure.value == MessageText(failureKey, [])
  {
    match t.run
    case Failed(message) => Step(tree, [], Some(message))
    case Exited(code, output) =>
      Step(tree + t.writes, Logged(output), if code != 0 then Some(MessageText(failureKey, [])) else None)
  }

  /** A JET tool launched through CmdLineTool.execute with the goal's log:
      the invocation is recorded, and the run's step is applied to the
      filesystem and the log. */
  method RunToolStep(log: Log, fs: FileSystem, inv: Invocation, world: World, launch: Invocation -> ToolRun,
                     failureKey: string)
    returns (failure: Option<string>)
    modifies world, fs, log
    ensures var s := ToolStep(launch(inv), old(fs.tree), failureKey);
      world.launched == old(world.launched) + [inv] && world.archives == old(world.archives) &&
      fs.tree == s.tree && log.entries == old(log.entries) + s.logged && failure == s.failure
  {
    world.launched := world.launched + [inv];
    var t := launch(inv);
    match t.run
    case Failed(message) =>
      failure := Some(message);
    case Exited(exitCode, output) =>
      LogOutput(log, output);
      fs.tree := fs.tree + t.writes;
      failure := if exitCode != 0 then Some(MessageText(failureKey, [])) else None;
  }

  /** The dependency list the compiler receives: each staged file's path
      relative to the build directory. */
  function DependencyPaths(deps: seq<AbstractJetMojo.Dependency>): (r: seq<string>)
    ensures |r| == |deps| && forall i :: 0 <= i < |deps| ==> r[i] == deps[i].dependency
  {
    seq(|deps|, i requires 0 <= i < |deps| => deps[i].dependency)
  }

  /** Where the zip archive is written. */
  function ZipTarget(sep: char, jetOutputDir: Path, finalName: string): (r: Path)
    ensures Within(r, jetOutputDir, sep) && EndsWith(r, ".zip")
  {
    var r := Child(jetOutputDir, sep, finalName + ".zip");
    assert r[|r| - 4..] == (finalName + ".zip")[|finalName|..];
    r
  }

  /** Appending in two steps is appending the two lists at once. */
  lemma AppendAssoc<T>(a: seq<T>, b: seq<T>, c: seq<T>)
    ensures a + b + c == a + (b + c)
  {
  }

  /** The decimal text of 0 is "0", the value the coercion presets. */
  lemma ZeroText()
    ensures IntToString(0) == "0"
  {
    assert NatToString(0) == [DigitChar(0)];
  }

  /** One slot of the coercion: Integer.decode of the piece, else of the
      text before a `-` that is not its first character; None when both
      throw NumberFormatException and the slot keeps its "0". */
  method DecodeComponent(part: string) returns (r: Option<int>)
    ensures r.Some? ==> r.value == ComponentValue(part)
    ensures r.None? ==> ComponentValue(part) == 0
  {
    r := Decode(part);
    if r.None? {
      var minusPos := IndexOf(part, '-');
      if minusPos > 0 {
        r := Decode(part[..minusPos]);
      }
    }
  }

  /** The coercion of checkVersionInfo: the version split at its dots,
      the slots filled, the slots joined with dots. */
  method CoercedVersion(winVIVersion: string) returns (r: string)
    ensures r == CoerceVersion(winVIVersion)
  {
    var versions := Split(winVIVersion, '.');
    var finalVersions := CoercedSlots(versions);
    assert finalVersions[..] == Texts(SlotNumbers(versions));
    r := Join(finalVersions[..], '.');
  }

  /** The loop of the coercion: four slots preset to "0", the first
      min(|versions|, 4) of them overwritten with the decoded pieces. */
  method CoercedSlots(versions: seq<string>) returns (finalVersions: array<string>)
    ensures fresh(finalVersions) && finalVersions.Length == 4
    ensures forall k :: 0 <= k < 4 ==> finalVersions[k] == IntToString(Slot(versions, k))
  {
    finalVersions := new string[4](_ => "0");
    var n := if |versions| < 4 then |versions| else 4;
    ZeroText();
    var i := 0;
    while i < n
      invariant 0 <= i <= n
      invariant forall k :: 0 <= k < i ==> finalVersions[k] == IntToString(Slot(versions, k))
      invariant forall k :: i <= k < 4 ==> finalVersions[k] == "0"
    {
      FillSlot(finalVersions, versions, i);
      i := i + 1;
    }
  }

  /** One pass of the coercion loop: slot `i` gets the decoded piece, or
      keeps its "0". */
  method FillSlot(finalVersions: array<string>, versions: seq<string>, i: nat)
    requires i < finalVersions.Length && i < |versions| && finalVersions[i] == "0"
    modifies finalVersions
    ensures finalVersions[i] == IntToString(Slot(versions, i))
    ensures forall k :: 0 <= k < finalVersions.Length && k != i ==> finalVersions[k] == old(finalVersions[k])
  {
    ZeroText();
    var decoded := DecodeComponent(versions[i]);
    if decoded.Some? {
      finalVersions[i] := IntToString(decoded.value);
    }
  }

  /** The goal's state: the project, the parameters it only reads, the
      parameters its checks rewrite, and its log. */
  class JetMojo {
    const project: Project
    const params: Parameters
    var settings: Settings
    const log: Log
    /** The host's `os.name`. */
    const osName: string
    /** The current year, as SimpleDateFormat("yyyy") gives it. */
    const curYear: string

    constructor (project: Project, params: Parameters, settings: Settings, log: Log, osName: string,
                 curYear: string)
      ensures this.project == project && this.params == params && this.settings == settings
      ensures this.log == log && this.osName == osName && this.curYear == curYear
    {
      this.project := project;
      this.params := params;
      this.settings := settings;
      this.log := log;
      this.osName := osName;
      this.curYear := curYear;
    }

    /** checkVersionInfo, step by step on the fields; the exception it
        throws, if any, is returned. */
    method CheckVersionInfo(edition: Result<JetEdition.Edition, JetEdition.JetHomeException>)
      returns (failure: Option<MojoException>)
      modifies this, log
      ensures var c := VersionInfoChecked(old(settings), osName, edition, project, curYear);
        settings == c.settings && log.entries == old(log.entries) + c.logged && failure == c.failure
    {
      ghost var log0, warned: seq<Entry> := log.entries, [];
      if !Utils.IsWindows(osName) {
        settings := settings.(addWindowsVersionInfo := false);
      }
      if settings.addWindowsVersionInfo {
        if edition.Failure? {
          return Some(MojoFailureException(edition.error.message, []));
        }
        if edition.value == JetEdition.Standard {
          log.Warn(MessageText(NoVersionInfoInStandardKey, []));
          warned := [Warning(NoVersionInfoInStandardKey, [])];
          settings := settings.(addWindowsVersionInfo := false);
        }
      }
      assert log.entries == log0 + warned;
      if settings.addWindowsVersionInfo || settings.packaging == ExcelsiorInstaller {
        failure := DefaultNames();
        if failure.Some? {
          return;
        }
      }
      if settings.addWindowsVersionInfo {
        ghost var v := old(settings).winVIVersion;
        FillVersionInfo();
        AppendAssoc(log0, warned, CoercionWarning(v));
      }
      failure := None;
    }

    /** The vendor and product defaults of checkVersionInfo. */
    method DefaultNames() returns (failure: Option<MojoException>)
      modifies this
      ensures var n := NamesDefaulted(old(settings), project.groupId, project.artifactId);
        (failure.None? <==> n.Success?) &&
        (n.Failure? ==> failure == Some(n.error) && settings == old(settings)) &&
        (n.Success? ==> settings == n.value)
    {
      if Utils.IsEmpty(settings.vendor) {
        var vendor := DefaultVendor(project.groupId);
        if vendor.Failure? {
          return Some(vendor.error);
        }
        settings := settings.(vendor := Some(vendor.value));
      }
      if Utils.IsEmpty(settings.product) {
        settings := settings.(product := Some(project.artifactId));
      }
      failure := None;
    }

    /** The version coercion, copyright and description of
        checkVersionInfo. */
    method FillVersionInfo()
      modifies this, log
      ensures settings == VersionInfoFilled(old(settings), project.inceptionYear, curYear)
      ensures log.entries == old(log.entries) + CoercionWarning(old(settings).winVIVersion)
    {
      var finalVersion := CoercedVersion(settings.winVIVersion);
      if settings.winVIVersion != finalVersion {
        log.Warn(MessageText(NotCompatibleExeVersionKey, [settings.winVIVersion, finalVersion]));
        settings := settings.(winVIVersion := finalVersion);
      }
      if settings.winVICopyright.None? {
        settings := settings.(winVICopyright := Some(Copyright(project.inceptionYear, curYear, settings.vendor)));
      }
      if settings.winVIDescription.None? {
        settings := settings.(winVIDescription := settings.product);
      }
    }

    /** checkPrerequisites: the JET home on success, the exception
        otherwise; the fields end as the checks leave them. */
    method CheckPrerequisites(h: Host, edition: Result<JetEdition.Edition, JetEdition.JetHomeException>)
      returns (r: Result<Path, MojoException>)
      requires h.osName == osName
      modifies this, log
      ensures var c := PrerequisitesChecked(h, params, old(settings), project, edition, curYear);
        settings == c.settings && log.entries == old(log.entries) + c.logged && r == c.home
    {
      ghost var s0, log0 := settings, log.entries;
      var screened := Screen(h);
      if screened.Some? {
        return Failure(screened.value);
      }
      ghost var c := Screened(h, params, s0, project);
      r := CheckHome(h, edition);
      ghost var a := HomeChecked(h, params, c.settings, project, edition, curYear);
      AppendAssoc(log0, c.logged, a.logged);
    }

    /** The JET home and the version info, once the first checks pass. */
    method CheckHome(h: Host, edition: Result<JetEdition.Edition, JetEdition.JetHomeException>)
      returns (r: Result<Path, MojoException>)
      requires h.osName == osName
      modifies this, log
      ensures var a := HomeChecked(h, params, old(settings), project, edition, curYear);
        settings == a.settings && log.entries == old(log.entries) + a.logged && r == a.home
    {
      var home := AbstractJetMojo.ResolveJetHome(h, params.jetHome);
      if home.Failure? {
        return Failure(home.error);
      }
      var failure := CheckVersionInfo(edition);
      if failure.Some? {
        return Failure(failure.value);
      }
      r := Success(home.value);
    }

    /** The checks of checkPrerequisites before the JET home. */
    method Screen(h: Host) returns (failure: Option<MojoException>)
      requires h.osName == osName
      modifies this, log
      ensures var c := Screened(h, params, old(settings), project);
        settings == c.settings && log.entries == old(log.entries) + c.logged && failure == c.failure
    {
      if !h.Exists(params.mainJar) {
        var error := AbstractJetMojo.MainJarMissing(project.packaging, params.mainJar);
        log.Error(MessageText(error.key, error.args));
        return Some(error);
      }
      if Utils.IsEmpty(settings.mainClass) {
        return Some(MojoFailureException(AbstractJetMojo.MainNotSpecifiedKey, []));
      }
      var main := MainClassPath(settings.mainClass.value);
      settings := settings.(mainClass := Some(main));
      if settings.outputName.None? {
        settings := settings.(outputName := Some(FileName(main, '/')));
      }
      var choice := CheckPackaging(settings.packaging, osName);
      if choice.Failure? {
        return Some(choice.error);
      }
      if choice.value.downgraded {
        log.Warn(MessageText(NoExcelsiorInstallerOnOSXKey, []));
      }
      settings := settings.(packaging := choice.value.packaging);
      if h.Exists(params.eula) && h.Exists(params.unicodeEula) {
        return Some(MojoFailureException(BothEulaParametersKey, []));
      }
      failure := None;
    }

    // -------------------------------------------------------------------
    // The build

    /** execute: the checks, the build directory, an empty application
        directory, the staged dependencies, and then the compiler, the
        packager and the packaging, any failure of which is logged and
        reported as one unexpected error. */
    method Execute(h: Host, fs: FileSystem, edition: Result<JetEdition.Edition, JetEdition.JetHomeException>,
                   world: World, launch: Invocation -> ToolRun)
      returns (r: Option<MojoException>)
      requires h.osName == osName && h.sep == fs.sep && h.tree == fs.tree
      modifies this, log, fs, world
      ensures var c := PrerequisitesChecked(h, params, old(settings), project, edition, curYear);
        c.home.Failure? ==>
          r == Some(c.home.error) && settings == c.settings && log.entries == old(log.entries) + c.logged &&
          fs.tree == old(fs.tree) && world.launched == old(world.launched) && world.archives == old(world.archives)
      ensures |world.launched| > |old(world.launched)| ==>
        world.launched[|old(world.launched)|].tool == CompilerName &&
        world.launched[|old(world.launched)|].workDir == Child(params.jetOutputDir, fs.sep, AbstractJetMojo.BuildDirName) &&
        |world.launched[|old(world.launched)|].args| >= 1 &&
        world.launched[|old(world.launched)|].args[0] == FileName(params.mainJar, fs.sep)
      ensures |world.launched| > |old(world.launched)| && r.Some? ==>
        r == Some(MojoExecutionException(UnexpectedErrorKey, [])) &&
        |log.entries| > 0 && log.entries[|log.entries| - 1].level == Level.Error
      ensures r.None? ==> Succeeded(world, old(world.launched), old(world.archives), fs.sep, fs.tree)
    {
      var home := CheckPrerequisites(h, edition);
      if home.Failure? {
        return Some(home.error);
      }
      r := Produce(fs, home.value, world, launch);
    }

    /** execute once the checks have passed. */
    method Produce(fs: FileSystem, home: Path, world: World, launch: Invocation -> ToolRun) returns (r: Option<MojoException>)
      modifies world, log, fs
      ensures |world.launched| > |old(world.launched)| ==>
        world.launched[|old(world.launched)|].tool == CompilerName &&
        world.launched[|old(world.launched)|].workDir == Child(params.jetOutputDir, fs.sep, AbstractJetMojo.BuildDirName) &&
        |world.launched[|old(world.launched)|].args| >= 1 &&
        world.launched[|old(world.launched)|].args[0] == FileName(params.mainJar, fs.sep)
      ensures |world.launched| > |old(world.launched)| && r.Some? ==>
        r == Some(MojoExecutionException(UnexpectedErrorKey, [])) &&
        |log.entries| > 0 && log.entries[|log.entries| - 1].level == Level.Error
      ensures r.None? ==> Succeeded(world, old(world.launched), old(world.archives), fs.sep, fs.tree)
    {
      var buildDir := Child(params.jetOutputDir, fs.sep, AbstractJetMojo.BuildDirName);
      var appDir := Child(params.jetOutputDir, fs.sep, AppDirName);
      var deps := Prepare(fs, buildDir, appDir);
      if deps.Failure? {
        return Some(deps.error);
      }
      var failure := Build(fs, home, buildDir, appDir, deps.value, world, launch);
      if failure.Some? {
        log.Error(failure.value);
        return Some(MojoExecutionException(UnexpectedErrorKey, []));
      }
      r := None;
    }

    /** The part of execute between the checks and the tools: the build
        directory is made, the application directory emptied, and the
        dependencies staged, the main jar first. */
    method Prepare(fs: FileSystem, buildDir: Path, appDir: Path) returns (r: Result<seq<string>, MojoException>)
      modifies fs
      ensures r.Success? ==> |r.value| >= 1 && r.value[0] == FileName(params.mainJar, fs.sep)
      ensures r.Failure? ==>
        r.error == MojoExecutionException(AbstractJetMojo.DirCreateErrorKey, [buildDir]) ||
        r.error == MojoExecutionException(AbstractJetMojo.DirCreateErrorKey,
                                          [Child(buildDir, fs.sep, AbstractJetMojo.LibDirName)]) ||
        r.error == MojoExecutionException(AbstractJetMojo.ErrorCopyingDependencyKey, []) ||
        (r.error.MojoFailureException? && r.error.key == Utils.CleanDirectoryFailedKey && |r.error.args| == 1 &&
         (r.error.args[0] == appDir || r.error.args[0] in fs.denied))
    {
      var made := AbstractJetMojo.Mkdir(fs, buildDir);
      if made.Fail? {
        return Failure(made.error);
      }
      var cleaned := Utils.CleanDirectory(fs, appDir);
      if cleaned.Fail? {
        return Failure(MojoFailureException(Utils.CleanDirectoryFailedKey, [cleaned.error.path]));
      }
      AbstractJetMojo.MainJarFirst(AbstractJetMojo.IfMissing, AbstractJetMojo.LibDirName + [fs.sep], fs.tree, fs.denied,
                                   fs.now, fs.sep, buildDir, params.mainJar, project.artifacts, project.groupId);
      r := CopyDependencies(fs, buildDir);
    }

    /** What a successful build leaves: the compiler and then the packager
        were launched in the build directory, a second packager launch
        built the installer, or the zip archive was written; the last two
        log entries announce the result. */
    predicate Succeeded(world: World, launched0: seq<Invocation>, archives0: seq<Archive>, sep: char, tree: Tree)
      reads this, log, world
    {
      var n := |launched0|;
      var buildDir := Child(params.jetOutputDir, sep, AbstractJetMojo.BuildDirName);
      var ei := settings.packaging == ExcelsiorInstaller;
      |world.launched| == n + (if ei then 3 else 2) && world.launched[..n] == launched0 &&
      world.launched[n].tool == CompilerName && world.launched[n + 1].tool == PackagerName &&
      world.launched[n].workDir == buildDir && world.launched[n + 1].workDir == buildDir &&
      (ei ==> world.launched[n + 2].tool == PackagerName && world.launched[n + 2].workDir == buildDir) &&
      (settings.packaging == Zip ==>
        |world.archives| == |archives0| + 1 &&
        world.archives[|archives0|].target == ZipTarget(sep, params.jetOutputDir, project.finalName) &&
        ZipTarget(sep, params.jetOutputDir, project.finalName) in tree) &&
      (settings.packaging != Zip ==> world.archives == archives0) &&
      |log.entries| >= 2 && log.entries[|log.entries| - 2] == Entry(Level.Info, MessageText(BuildSuccessKey, []))
    }

    /** The try block of execute: compile, createAppDir, packageBuild; the
        message of the exception that stops it, if any. */
    method Build(fs: FileSystem, home: Path, buildDir: Path, appDir: Path, deps: seq<string>,
                 world: World, launch: Invocation -> ToolRun)
      returns (failure: Option<string>)
      requires buildDir == Child(params.jetOutputDir, fs.sep, AbstractJetMojo.BuildDirName)
      modifies world, fs, log
      ensures |world.launched| > |old(world.launched)| && world.launched[..|old(world.launched)|] == old(world.launched)
      ensures world.launched[|old(world.launched)|] == Invocation(home, CompilerName,
        deps + CompilerOptions(osName, IsFile(old(fs.tree), params.icon), params.icon, params.hideConsole, settings),
        buildDir)
      ensures failure.None? ==> Succeeded(world, old(world.launched), old(world.archives), fs.sep, fs.tree)
    {
      failure := Compile(fs, home, buildDir, deps, world, launch);
      if failure.Some? {
        return;
      }
      ghost var compiled := world.launched;
      failure := CreateAppDir(fs, home, buildDir, appDir, world, launch);
      if failure.Some? {
        return;
      }
      ghost var laidOut := world.launched;
      failure := PackageBuild(fs, home, buildDir, appDir, world, launch);
      assert world.launched[..|old(world.launched)|] == old(world.launched) by {
        assert world.launched[..|laidOut|] == laidOut && laidOut[..|compiled|] == compiled;
      }
    }

    /** compile: the JET compiler on the dependencies and the options, in
        the build directory. */
    method Compile(fs: FileSystem, home: Path, buildDir: Path, deps: seq<string>, world: World, launch: Invocation -> ToolRun)
      returns (failure: Option<string>)
      modifies world, fs, log
      ensures var inv := Invocation(home, CompilerName,
          deps + CompilerOptions(osName, IsFile(old(fs.tree), params.icon), params.icon, params.hideConsole, settings),
          buildDir);
        var s := ToolStep(launch(inv), old(fs.tree), BuildFailureKey);
        world.launched == old(world.launched) + [inv] && world.archives == old(world.archives) &&
        fs.tree == s.tree && log.entries == old(log.entries) + s.logged && failure == s.failure
    {
      var compilerArgs := CompilerArgs(deps, IsFile(fs.tree, params.icon));
      failure := RunTool(fs, Invocation(home, CompilerName, compilerArgs, buildDir), world, launch, BuildFailureKey);
    }

    /** The argument list compile builds, one option at a time. */
    method CompilerArgs(deps: seq<string>, iconIsFile: bool) returns (compilerArgs: seq<string>)
      ensures compilerArgs == deps + CompilerOptions(osName, iconIsFile, params.icon, params.hideConsole, settings)
    {
      compilerArgs := deps;
      if Utils.IsWindows(osName) {
        if iconIsFile {
          compilerArgs := compilerArgs + [params.icon];
        }
        if params.hideConsole {
          compilerArgs := compilerArgs + ["-gui+"];
        }
      }
      ghost var windows := WindowsOptions(osName, iconIsFile, params.icon, params.hideConsole);
      assert compilerArgs == deps + windows;
      var common := ["-main=" + settings.mainClass.GetOr("null"), "-outputname=" + settings.outputName.GetOr("null"),
                     "-decor=ht"];
      compilerArgs := compilerArgs + common;
      AppendAssoc(deps, windows, common);
      if settings.addWindowsVersionInfo {
        var versionInfo := ["-versioninfocompanyname=" + settings.vendor.GetOr("null"),
                            "-versioninfoproductname=" + settings.product.GetOr("null"),
                            "-versioninfoproductversion=" + settings.winVIVersion,
                            "-versioninfolegalcopyright=" + settings.winVICopyright.GetOr("null"),
                            "-versioninfofiledescription=" + settings.winVIDescription.GetOr("null")];
        AppendAssoc(deps, windows + common, versionInfo);
        compilerArgs := compilerArgs + versionInfo;
      }
    }

    /** createAppDir: the packager lays the executable and the JET runtime
        out in the application directory. */
    method CreateAppDir(fs: FileSystem, home: Path, buildDir: Path, appDir: Path, world: World, launch: Invocation -> ToolRun)
      returns (failure: Option<string>)
      modifies world, fs, log
      ensures var inv := Invocation(home, PackagerName, AppDirArgs(osName, settings, appDir), buildDir);
        var s := ToolStep(launch(inv), old(fs.tree), PackageFailureKey);
        world.launched == old(world.launched) + [inv] && world.archives == old(world.archives) &&
        fs.tree == s.tree && log.entries == old(log.entries) + s.logged && failure == s.failure
    {
      var args := ["-add-file", Utils.MangleExeName(osName, settings.outputName.GetOr("null")), "/",
                   "-target", appDir];
      failure := RunTool(fs, Invocation(home, PackagerName, args, buildDir), world, launch, PackageFailureKey);
    }

    /** packWithEI: the packager builds the Excelsior Installer; the
        installer's path is returned. */
    method PackWithEI(fs: FileSystem, home: Path, buildDir: Path, world: World, launch: Invocation -> ToolRun)
      returns (target: Path, failure: Option<string>)
      modifies world, fs, log
      ensures target == InstallerTarget(osName, fs.sep, params.jetOutputDir, project.finalName)
      ensures var t := old(fs.tree);
        var eula := EulaOptions(params.eula in t, params.eula, params.unicodeEula in t, params.unicodeEula);
        var inv := Invocation(home, PackagerName,
          InstallerArgs(osName, eula, params.installerSplash in t, params.installerSplash, settings,
                        params.version, target),
          buildDir);
        var s := ToolStep(launch(inv), t, PackageFailureKey);
        world.launched == old(world.launched) + [inv] && world.archives == old(world.archives) &&
        fs.tree == s.tree && log.entries == old(log.entries) + s.logged && failure == s.failure
    {
      target := Child(params.jetOutputDir, fs.sep, Utils.MangleExeName(osName, project.finalName));
      var xpackArgs := InstallerArgList(fs, target);
      failure := RunTool(fs, Invocation(home, PackagerName, xpackArgs, buildDir), world, launch, PackageFailureKey);
    }

    /** The argument list packWithEI builds. */
    method InstallerArgList(fs: FileSystem, target: Path) returns (xpackArgs: seq<string>)
      ensures var t := fs.tree;
        xpackArgs == InstallerArgs(osName,
          EulaOptions(params.eula in t, params.eula, params.unicodeEula in t, params.unicodeEula),
          params.installerSplash in t, params.installerSplash, settings, params.version, target)
    {
      xpackArgs := [];
      if fs.Exists(params.eula) {
        xpackArgs := xpackArgs + ["-eula", params.eula];
      } else if fs.Exists(params.unicodeEula) {
        xpackArgs := xpackArgs + ["-unicode-eula", params.unicodeEula];
      }
      if Utils.IsWindows(osName) && fs.Exists(params.installerSplash) {
        xpackArgs := xpackArgs + ["-splash", params.installerSplash];
      }
      xpackArgs := xpackArgs +
        ["-add-file", Utils.MangleExeName(osName, settings.outputName.GetOr("null")), "/",
         "-backend", ExcelsiorInstaller,
         "-company", settings.vendor.GetOr("null"),
         "-product", settings.product.GetOr("null"),
         "-version", params.version,
         "-target", target];
    }

    /** packageBuild: the application directory is archived, wrapped into
        an installer, or left as it is, and the result is announced. */
    method PackageBuild(fs: FileSystem, home: Path, buildDir: Path, appDir: Path, world: World, launch: Invocation -> ToolRun)
      returns (failure: Option<string>)
      requires buildDir == Child(params.jetOutputDir, fs.sep, AbstractJetMojo.BuildDirName)
      modifies world, fs, log
      ensures settings.packaging == ExcelsiorInstaller ==>
        |world.launched| == |old(world.launched)| + 1 && world.launched[..|old(world.launched)|] == old(world.launched) &&
        world.launched[|old(world.launched)|].tool == PackagerName && world.launched[|old(world.launched)|].workDir == buildDir &&
        world.archives == old(world.archives)
      ensures settings.packaging != ExcelsiorInstaller ==> world.launched == old(world.launched)
      ensures settings.packaging == Zip ==>
        var target := ZipTarget(fs.sep, params.jetOutputDir, project.finalName);
        var t1 := old(fs.tree)[target := Node(RegularFile, fs.now, [], false)];
        var zipped := CanZip(t1, fs.denied, appDir, fs.sep, target);
        (failure.None? <==> zipped) &&
        (zipped ==> world.archives == old(world.archives) + [Archive(target, ZipEntries(t1, fs.denied, appDir, fs.sep, osName))]
                    && fs.tree == t1 &&
                    log.entries == old(log.entries) +
                      [Entry(Level.Info, MessageText(ZipAppInfoKey, [])),
                       Entry(Level.Info, MessageText(BuildSuccessKey, [])),
                       Entry(Level.Info, MessageText(GetZipInfoKey, [target]))])
      ensures settings.packaging != Zip && settings.packaging != ExcelsiorInstaller ==>
        failure.None? && fs.tree == old(fs.tree) && world.archives == old(world.archives) &&
        log.entries == old(log.entries) +
          [Entry(Level.Info, MessageText(BuildSuccessKey, [])), Entry(Level.Info, MessageText(GetDirInfoKey, [appDir]))]
      ensures failure.None? && settings.packaging == ExcelsiorInstaller ==>
        var target := InstallerTarget(osName, fs.sep, params.jetOutputDir, project.finalName);
        |log.entries| >= 2 &&
        log.entries[|log.entries| - 2..] ==
          [Entry(Level.Info, MessageText(BuildSuccessKey, [])), Entry(Level.Info, MessageText(GetEIInfoKey, [target]))]
    {
      if settings.packaging == Zip {
        failure := ZipApp(fs, world, appDir);
      } else if settings.packaging == ExcelsiorInstaller {
        failure := InstallerApp(fs, home, buildDir, world, launch);
      } else {
        log.Info(MessageText(BuildSuccessKey, []));
        log.Info(MessageText(GetDirInfoKey, [appDir]));
        failure := None;
      }
    }

    /** The zip case of packageBuild. */
    method ZipApp(fs: FileSystem, world: World, appDir: Path) returns (failure: Option<string>)
      modifies world, fs, log
      ensures world.launched == old(world.launched)
      ensures var target := ZipTarget(fs.sep, params.jetOutputDir, project.finalName);
        var t1 := old(fs.tree)[target := Node(RegularFile, fs.now, [], false)];
        var zipped := CanZip(t1, fs.denied, appDir, fs.sep, target);
        (failure.None? <==> zipped) &&
        (zipped ==> world.archives == old(world.archives) + [Archive(target, ZipEntries(t1, fs.denied, appDir, fs.sep, osName))]
                    && fs.tree == t1 &&
                    log.entries == old(log.entries) +
                      [Entry(Level.Info, MessageText(ZipAppInfoKey, [])),
                       Entry(Level.Info, MessageText(BuildSuccessKey, [])),
                       Entry(Level.Info, MessageText(GetZipInfoKey, [target]))])
    {
      log.Info(MessageText(ZipAppInfoKey, []));
      var targetZip := ZipTarget(fs.sep, params.jetOutputDir, project.finalName);
      failure := CompressZipfile(fs, world, appDir, targetZip);
      if failure.Some? {
        return;
      }
      log.Info(MessageText(BuildSuccessKey, []));
      log.Info(MessageText(GetZipInfoKey, [targetZip]));
    }

    /** The installer case of packageBuild. */
    method InstallerApp(fs: FileSystem, home: Path, buildDir: Path, world: World, launch: Invocation -> ToolRun)
      returns (failure: Option<string>)
      modifies world, fs, log
      ensures |world.launched| == |old(world.launched)| + 1 && world.launched[..|old(world.launched)|] == old(world.launched)
      ensures world.launched[|old(world.launched)|].tool == PackagerName
      ensures world.launched[|old(world.launched)|].workDir == buildDir
      ensures world.archives == old(world.archives)
      ensures failure.None? ==>
        var target := InstallerTarget(osName, fs.sep, params.jetOutputDir, project.finalName);
        |log.entries| >= 2 &&
        log.entries[|log.entries| - 2..] ==
          [Entry(Level.Info, MessageText(BuildSuccessKey, [])), Entry(Level.Info, MessageText(GetEIInfoKey, [target]))]
    {
      var target;
      target, failure := PackWithEI(fs, home, buildDir, world, launch);
      if failure.Some? {
        return;
      }
      log.Info(MessageText(BuildSuccessKey, []));
      log.Info(MessageText(GetEIInfoKey, [target]));
    }

    /** compressZipfile: the zip file is created, then the directory is
        walked into it. A zip file that cannot be created, or a directory
        or file of the walk that cannot be read, stops it with an
        exception; the model reports the archive's path for it. */
    method CompressZipfile(fs: FileSystem, world: World, sourceDir: Path, outputFile: Path) returns (failure: Option<string>)
      modifies world, fs
      ensures var t1 := old(fs.tree)[outputFile := Node(RegularFile, fs.now, [], false)];
        var zipped := CanZip(t1, fs.denied, sourceDir, fs.sep, outputFile);
        (failure.None? <==> zipped) &&
        world.launched == old(world.launched) &&
        (failure.Some? ==> failure == Some(outputFile) && world.archives == old(world.archives)) &&
        (zipped ==> world.archives == old(world.archives) + [Archive(outputFile, ZipEntries(t1, fs.denied, sourceDir, fs.sep, osName))]) &&
        fs.tree == (if outputFile in fs.denied then old(fs.tree) else t1)
    {
      if outputFile in fs.denied {
        return Some(outputFile);
      }
      fs.tree := fs.tree[outputFile := Node(RegularFile, fs.now, [], false)];
      if !CanZip(fs.tree, fs.denied, sourceDir, fs.sep, outputFile) {
        return Some(outputFile);
      }
      world.archives := world.archives + [Archive(outputFile, ZipEntries(fs.tree, fs.denied, sourceDir, fs.sep, osName))];
      failure := None;
    }

    /** A JET tool, started with the goal's log in the given directory. */
    method RunTool(fs: FileSystem, inv: Invocation, world: World, launch: Invocation -> ToolRun, failureKey: string)
      returns (failure: Option<string>)
      modifies world, fs, log
      ensures var s := ToolStep(launch(inv), old(fs.tree), failureKey);
        world.launched == old(world.launched) + [inv] && world.archives == old(world.archives) &&
        fs.tree == s.tree && log.entries == old(log.entries) + s.logged && failure == s.failure
    {
      failure := RunToolStep(log, fs, inv, world, launch, failureKey);
    }

    /** copyDependencies of this goal: files are copied only when missing,
        and the compiler receives their paths relative to the build
        directory. */
    method CopyDependencies(fs: FileSystem, buildDir: Path) returns (r: Result<seq<string>, MojoException>)
      modifies fs
      ensures var s := AbstractJetMojo.CopyDependenciesSpec(AbstractJetMojo.IfMissing, AbstractJetMojo.LibDirName + [fs.sep],
          old(fs.tree), fs.denied, fs.now, fs.sep, buildDir, params.mainJar, project.artifacts, project.groupId);
        fs.tree == s.tree &&
        (s.outcome.Failure? ==> r == Failure(s.outcome.error)) &&
        (s.outcome.Success? ==> r == Success(DependencyPaths(s.outcome.value)))
    {
      var deps := AbstractJetMojo.StageDependencies(fs, AbstractJetMojo.IfMissing, AbstractJetMojo.LibDirName + [fs.sep],
                                                    buildDir, params.mainJar, project.artifacts, project.groupId);
      if deps.Failure? {
        return Failure(deps.error);
      }
      r := Success(DependencyPaths(deps.value));
    }
  }
}
