/** The checks and derived values of the `build` goal
    (com.excelsiorjet.maven.plugin.JetMojo) that do not touch the
    filesystem: the Windows version-info defaults and the coercion of a
    Maven version to the four-number form an executable's version resource
    takes, the prerequisites, and the argument lists given to the JET
    compiler and packager. */
module JetMojoSettings {
  import opened Wrappers
  import opened JavaLang
  import opened Files
  import opened Host
  import opened Mojo
  import opened Logging
  import Utils
  import JetEdition
  import AbstractJetMojo

  // packaging types
  const Zip: string := "zip"
  const NoPackaging: string := "none"
  const ExcelsiorInstaller: string := "excelsior-installer"

  const NoVersionInfoInStandardKey: string := "JetMojo.NoVersionInfoInStandard.Warning"
  const NotCompatibleExeVersionKey: string := "JetMojo.NotCompatibleExeVersion.Warning"
  const NoExcelsiorInstallerOnOSXKey: string := "JetMojo.NoExcelsiorInstallerOnOSX.Warning"
  const UnknownPackagingModeKey: string := "JetMojo.UnknownPackagingMode.Failure"
  const BothEulaParametersKey: string := "JetMojo.BothEulaParameters.Failure"

  /** A warning as the goal logs it. */
  function Warning(key: string, args: seq<string>): Entry {
    Entry(Warn, MessageText(key, args))
  }

  // ---------------------------------------------------------------------
  // Coercion of the version to v1.v2.v3.v4

  lemma DecodeInRange(s: string)
    ensures Decode(s).Some? ==> IsInt32(Decode(s).value)
  {
  }

  /** One component of the coerced version: the number Integer.decode
      reads from the piece, else the number before a `-` that is not the
      piece's first character, else 0. */
  function ComponentValue(part: string): (r: int)
    ensures IsInt32(r)
    ensures Decode(part).Some? ==> r == Decode(part).value
  {
    DecodeInRange(part);
    if Decode(part).Some? then Decode(part).value
    else
      var minus := IndexOf(part, '-');
      if minus > 0 && Decode(part[..minus]).Some? then
        DecodeInRange(part[..minus]);
        Decode(part[..minus]).value
      else 0
  }

  /** The number in slot `i`: the component of the `i`-th piece, or 0 when
      there are fewer pieces. */
  function Slot(versions: seq<string>, i: nat): (r: int)
    ensures IsInt32(r)
    ensures i >= |versions| ==> r == 0
  {
    if i < |versions| then ComponentValue(versions[i]) else 0
  }

  /** The four numbers of the coerced version, from the first four
      dot-separated pieces. */
  function VersionNumbers(winVIVersion: string): (r: seq<int>)
    ensures |r| == 4 && forall i :: 0 <= i < 4 ==> IsInt32(r[i])
  {
    SlotNumbers(Split(winVIVersion, '.'))
  }

  /** The numbers of the first four slots. */
  function SlotNumbers(versions: seq<string>): (r: seq<int>)
    ensures |r| == 4 && forall i :: 0 <= i < 4 ==> IsInt32(r[i]) && r[i] == Slot(versions, i)
  {
    [Slot(versions, 0), Slot(versions, 1), Slot(versions, 2), Slot(versions, 3)]
  }

  /** Integer.toString of each number. */
  function Texts(ns: seq<int>): (r: seq<string>)
    ensures |r| == |ns| && forall i :: 0 <= i < |ns| ==> r[i] == IntToString(ns[i])
  {
    seq(|ns|, i requires 0 <= i < |ns| => IntToString(ns[i]))
  }

  /** The numbers joined with dots. */
  function Render(ns: seq<int>): string {
    Join(Texts(ns), '.')
  }

  /** The decimal text of a number holds no dot and is never empty. */
  lemma NumberShape(v: int)
    ensures |IntToString(v)| > 0 && '.' !in IntToString(v)
  {
    var s := IntToString(v);
    UnsignedIntToString(v);
    if v < 0 {
      var digits := NatToString(-v);
      assert s == "-" + digits;
      forall k | 0 <= k < |s|
        ensures s[k] != '.'
      {
        if k > 0 {
          assert s[k] == digits[k - 1];
        }
      }
    }
  }

  /** A number's text is read back as that number. */
  lemma ComponentOfNumber(n: int)
    requires IsInt32(n)
    ensures ComponentValue(IntToString(n)) == n
  {
    DecodeIntToString(n);
  }

  /** Reading the numbers back from their rendering gives them back. */
  lemma RenderRoundTrip(ns: seq<int>)
    requires |ns| == 4 && forall i :: 0 <= i < 4 ==> IsInt32(ns[i])
    ensures VersionNumbers(Render(ns)) == ns
  {
    var texts := Texts(ns);
    forall k | 0 <= k < 4
      ensures '.' !in texts[k] && |texts[k]| > 0
    {
      NumberShape(ns[k]);
    }
    SplitJoin(texts, '.');
    ComponentOfNumber(ns[0]);
    ComponentOfNumber(ns[1]);
    ComponentOfNumber(ns[2]);
    ComponentOfNumber(ns[3]);
  }

  /** The coerced version: the four numbers joined with dots. Coercing it
      again reads the same four numbers. */
  function CoerceVersion(winVIVersion: string): (r: string)
    ensures VersionNumbers(r) == VersionNumbers(winVIVersion)
  {
    RenderRoundTrip(VersionNumbers(winVIVersion));
    Render(VersionNumbers(winVIVersion))
  }

  /** Coercing twice is coercing once. */
  lemma CoerceVersionIdempotent(v: string)
    ensures CoerceVersion(CoerceVersion(v)) == CoerceVersion(v)
  {
  }

  /** The coercion keeps exactly the versions already written as four
      dot-separated numbers, so the warning is logged for the others and
      only for them. */
  lemma CoerceVersionFixedPoints(v: string)
    ensures CoerceVersion(v) == v <==>
      exists ns :: |ns| == 4 && (forall i :: 0 <= i < 4 ==> IsInt32(ns[i])) && Render(ns) == v
  {
    if exists ns :: |ns| == 4 && (forall i :: 0 <= i < 4 ==> IsInt32(ns[i])) && Render(ns) == v {
      var ns :| |ns| == 4 && (forall i :: 0 <= i < 4 ==> IsInt32(ns[i])) && Render(ns) == v;
      RenderRoundTrip(ns);
    } else {
      assert Render(VersionNumbers(v)) == CoerceVersion(v);
    }
  }

  /** A snapshot component such as `3-SNAPSHOT` keeps the number before
      its `-`. */
  lemma SnapshotComponent(n: nat, suffix: string)
    requires n <= IntMax
    ensures ComponentValue(NatToString(n) + "-" + suffix) == n
  {
    var digits := NatToString(n);
    var part := digits + "-" + suffix;
    assert part[..|digits|] == digits;
    assert part[|digits|] == '-';
    var minus := IndexOf(part, '-');
    assert minus == |digits| by {
      assert '-' !in digits;
    }
    var dd := DecodeDigits(part);
    assert Unsigned(part) == part;
    assert !IsHexPrefixed(part) by {
      assert part[0] != '#';
      if |digits| == 1 {
        assert part[1] == '-';
      } else {
        assert part[1] == digits[1];
      }
    }
    if part[0] == '0' {
      assert |digits| == 1;
      assert DecodeRadix(part) == 8;
      assert dd == part[1..];
      MagnitudeRejects(dd, 8, 0);
    } else {
      assert !StartsWith(part, "0");
      assert dd == part;
      MagnitudeRejects(dd, 10, |digits|);
    }
    assert Decode(part).None?;
    DecodeIntToString(n);
    assert part[..minus] == digits;
  }

  /** A Maven snapshot version `major.minor-suffix` is coerced to the
      numbers `major`, `minor`, 0 and 0. */
  lemma SnapshotVersion(major: nat, minor: nat, suffix: string)
    requires major <= IntMax && minor <= IntMax && '.' !in suffix
    ensures VersionNumbers(NatToString(major) + "." + NatToString(minor) + "-" + suffix) == [major, minor, 0, 0]
  {
    var v := NatToString(major) + "." + NatToString(minor) + "-" + suffix;
    var ma, mi := NatToString(major), NatToString(minor);
    assert '.' !in ma && '.' !in mi + "-" + suffix by {
      assert forall k :: 0 <= k < |ma| ==> ma[k] != '.';
      assert forall k :: 0 <= k < |mi| ==> (mi + "-" + suffix)[k] == mi[k];
    }
    assert v == ma + "." + (mi + "-" + suffix);
    TwoPieces(ma, mi + "-" + suffix);
    SnapshotComponent(minor, suffix);
    ComponentOfNumber(major);
    assert Slot(Split(v, '.'), 0) == major;
    assert Slot(Split(v, '.'), 1) == minor;
  }

  /** Two dot-free pieces joined by a dot split back into them. */
  lemma TwoPieces(a: string, b: string)
    requires '.' !in a && '.' !in b && |b| > 0
    ensures Split(a + "." + b, '.') == [a, b]
  {
    var pieces := [a, b];
    assert Join(pieces, '.') == a + "." + b;
    SplitJoin(pieces, '.');
  }

  /** Magnitude refuses a text with a character that is no digit. */
  lemma {:induction false} MagnitudeRejects(s: string, radix: nat, i: int)
    requires 0 <= i < |s| && radix <= 36 && DigitValue(s[i]) < 0
    ensures Magnitude(s, radix).None?
    decreases |s|
  {
    if i < |s| - 1 {
      MagnitudeRejects(s[..|s| - 1], radix, i);
    }
  }

  // ---------------------------------------------------------------------
  // Defaults derived from the project

  /** The upper-cased first character, then the rest. */
  function Capitalize(s: string): (r: string)
    requires |s| > 0
    ensures |r| == |s| && r[0] == ToUpperChar(s[0]) && r[1..] == s[1..]
  {
    [ToUpperChar(s[0])] + s[1..]
  }

  /** The vendor taken from the group id when the organization name is
      empty: its second dot-separated component, or the first when there
      is only one, capitalised. An empty component (charAt(0)) or an empty
      split (groupId[0]) throws an index-out-of-bounds exception. */
  function DefaultVendor(groupId: string): (r: Result<string, MojoException>)
    ensures r.Failure? ==> r.error == Unchecked(IndexOutOfBoundsException)
    ensures r.Success? ==> |r.value| > 0
  {
    var parts := Split(groupId, '.');
    if |parts| == 0 then Failure(Unchecked(IndexOutOfBoundsException))
    else
      var name := if |parts| >= 2 then parts[1] else parts[0];
      if |name| == 0 then Failure(Unchecked(IndexOutOfBoundsException))
      else Success(Capitalize(name))
  }

  /** With a group id of two or more components the vendor is the
      second one, capitalised. */
  lemma VendorIsSecondComponent(parts: seq<string>)
    requires |parts| >= 2 && |parts[1]| > 0 && parts[|parts| - 1] != ""
    requires forall k :: 0 <= k < |parts| ==> '.' !in parts[k]
    ensures DefaultVendor(Join(parts, '.')) == Success(Capitalize(parts[1]))
  {
    SplitJoin(parts, '.');
  }

  /** A one-component group id names the vendor itself. */
  lemma VendorOfSingleComponent(name: string)
    requires '.' !in name && |name| > 0
    ensures DefaultVendor(name) == Success(Capitalize(name))
  {
  }

  /** An empty group id, or one made only of dots, has no vendor to
      offer. */
  lemma NoVendorFromEmptyGroup()
    ensures DefaultVendor("") == Failure(Unchecked(IndexOutOfBoundsException))
    ensures DefaultVendor(".") == Failure(Unchecked(IndexOutOfBoundsException))
  {
    assert SplitAll(".", '.') == ["", ""] by {
      assert "."[1..] == "";
    }
  }

  /** The copyright line written when none is given: the inception year
      (when there is one) and the current year, then the vendor. */
  function Copyright(inceptionYear: Option<string>, curYear: string, vendor: Option<string>): (r: string)
    ensures StartsWith(r, "Copyright \\x00a9 ")
    ensures Utils.IsEmpty(inceptionYear) ==> r == "Copyright \\x00a9 " + curYear + " " + vendor.GetOr("null")
    ensures !Utils.IsEmpty(inceptionYear) ==>
      r == "Copyright \\x00a9 " + inceptionYear.value + "," + curYear + " " + vendor.GetOr("null")
  {
    var years := if Utils.IsEmpty(inceptionYear) then curYear else inceptionYear.value + "," + curYear;
    "Copyright \\x00a9 " + years + " " + vendor.GetOr("null")
  }

  // ---------------------------------------------------------------------
  // The goal's parameters

  /** What the goal knows of the Maven project. */
  datatype Project = Project(groupId: string, artifactId: string, packaging: string, finalName: string,
                             inceptionYear: Option<string>, artifacts: seq<AbstractJetMojo.Artifact>)

  /** The parameters the goal only reads. Paths are absolute. */
  datatype Parameters = Parameters(mainJar: Path, jetHome: Option<string>, jetOutputDir: Path, icon: Path,
                                   hideConsole: bool, version: string, eula: Path, unicodeEula: Path,
                                   installerSplash: Path)

  /** The parameters the checks rewrite. */
  datatype Settings = Settings(mainClass: Option<string>, outputName: Option<string>, packaging: string,
                               addWindowsVersionInfo: bool, vendor: Option<string>, product: Option<string>,
                               winVIVersion: string, winVICopyright: Option<string>,
                               winVIDescription: Option<string>)

  /** The settings after a check, what it logged, and the exception that
      ended it, if any. */
  datatype Checked = Checked(settings: Settings, logged: seq<Entry>, failure: Option<MojoException>)

  /** The Windows version-info settings are complete. */
  predicate VersionInfoReady(s: Settings) {
    CoerceVersion(s.winVIVersion) == s.winVIVersion && !Utils.IsEmpty(s.vendor) && s.product.Some? &&
    s.winVICopyright.Some? && s.winVIDescription.Some?
  }

  /** The vendor and product defaults: an empty vendor comes from the
      group id, an empty product is the artifact id; nothing else
      changes. */
  function NamesDefaulted(s: Settings, groupId: string, artifactId: string): (r: Result<Settings, MojoException>)
    ensures r.Failure? <==> Utils.IsEmpty(s.vendor) && DefaultVendor(groupId).Failure?
    ensures r.Failure? ==> r.error == Unchecked(IndexOutOfBoundsException)
    ensures r.Success? ==>
      !Utils.IsEmpty(r.value.vendor) && r.value.product.Some? &&
      r.value.(vendor := s.vendor, product := s.product) == s &&
      (!Utils.IsEmpty(s.vendor) ==> r.value.vendor == s.vendor) &&
      (!Utils.IsEmpty(s.product) ==> r.value.product == s.product) &&
      (Utils.IsEmpty(s.product) ==> r.value.product == Some(artifactId))
  {
    if Utils.IsEmpty(s.vendor) && DefaultVendor(groupId).Failure? then Failure(DefaultVendor(groupId).error)
    else
      Success(s.(vendor := if Utils.IsEmpty(s.vendor) then Some(DefaultVendor(groupId).value) else s.vendor,
                 product := if Utils.IsEmpty(s.product) then Some(artifactId) else s.product))
  }

  /** The version-info fields once version info is added: the coerced
      version, and a default copyright and description where none is
      given; nothing else changes. */
  function VersionInfoFilled(s: Settings, inceptionYear: Option<string>, curYear: string): (r: Settings)
    ensures VersionNumbers(r.winVIVersion) == VersionNumbers(s.winVIVersion)
    ensures CoerceVersion(r.winVIVersion) == r.winVIVersion
    ensures r.(winVIVersion := s.winVIVersion, winVICopyright := s.winVICopyright,
               winVIDescription := s.winVIDescription) == s
    ensures r.winVICopyright.Some? && (s.winVICopyright.Some? ==> r.winVICopyright == s.winVICopyright)
    ensures s.winVIDescription.Some? ==> r.winVIDescription == s.winVIDescription
    ensures s.winVIDescription.None? ==> r.winVIDescription == s.product
  {
    CoerceVersionIdempotent(s.winVIVersion);
    s.(winVIVersion := CoerceVersion(s.winVIVersion),
       winVICopyright := if s.winVICopyright.None? then Some(Copyright(inceptionYear, curYear, s.vendor))
                         else s.winVICopyright,
       winVIDescription := if s.winVIDescription.None? then s.product else s.winVIDescription)
  }

  /** The warning logged when the version had to be coerced. */
  function CoercionWarning(winVIVersion: string): (r: seq<Entry>)
    ensures r == [] <==> CoerceVersion(winVIVersion) == winVIVersion
  {
    var v := CoerceVersion(winVIVersion);
    if v != winVIVersion then [Warning(NotCompatibleExeVersionKey, [winVIVersion, v])] else []
  }

  /** checkVersionInfo. Version info is only added on Windows and never by
      the Standard edition; whenever it is added, or the Excelsior
      Installer is the packaging, a missing vendor and product are taken
      from the project; an added version info gets the coerced version and
      a default copyright and description. */
  function VersionInfoChecked(s: Settings, osName: string,
                              edition: Result<JetEdition.Edition, JetEdition.JetHomeException>,
                              project: Project, curYear: string): (r: Checked)
    ensures r.settings.addWindowsVersionInfo ==> Utils.IsWindows(osName) && s.addWindowsVersionInfo
    ensures r.failure.None? && r.settings.addWindowsVersionInfo ==>
      edition.Success? && edition.value != JetEdition.Standard
    ensures (Utils.IsWindows(osName) && s.addWindowsVersionInfo && edition.Success? &&
             edition.value != JetEdition.Standard) ==> r.settings.addWindowsVersionInfo
    ensures r.failure.None? && r.settings.addWindowsVersionInfo ==> VersionInfoReady(r.settings)
    ensures r.failure.None? && r.settings.packaging == ExcelsiorInstaller ==>
      !Utils.IsEmpty(r.settings.vendor) && r.settings.product.Some?
    ensures r.failure.Some? ==>
      r.failure.value == Unchecked(IndexOutOfBoundsException) ||
      (edition.Failure? && r.failure.value == MojoFailureException(edition.error.message, []))
    ensures r.settings.mainClass == s.mainClass && r.settings.outputName == s.outputName &&
            r.settings.packaging == s.packaging
    ensures !r.settings.addWindowsVersionInfo ==>
      r.settings.winVIVersion == s.winVIVersion && r.settings.winVICopyright == s.winVICopyright &&
      r.settings.winVIDescription == s.winVIDescription
    ensures !Utils.IsEmpty(s.vendor) ==> r.settings.vendor == s.vendor
    ensures !Utils.IsEmpty(s.product) ==> r.settings.product == s.product
  {
    var add := s.addWindowsVersionInfo && Utils.IsWindows(osName);
    if add && edition.Failure? then
      Checked(s.(addWindowsVersionInfo := add), [], Some(MojoFailureException(edition.error.message, [])))
    else
      var standard := add && edition.value == JetEdition.Standard;
      var warned := if standard then [Warning(NoVersionInfoInStandardKey, [])] else [];
      var s1 := s.(addWindowsVersionInfo := add && !standard);
      var named := if s1.addWindowsVersionInfo || s.packaging == ExcelsiorInstaller
                   then NamesDefaulted(s1, project.groupId, project.artifactId) else Success(s1);
      if named.Failure? then Checked(s1, warned, Some(named.error))
      else if !s1.addWindowsVersionInfo then Checked(named.value, warned, None)
      else
        Checked(VersionInfoFilled(named.value, project.inceptionYear, curYear),
                warned + CoercionWarning(s.winVIVersion), None)
  }

  /** When version info is added, the only thing logged is the version
      warning, and it is logged exactly when the version is not yet in the
      four-number form. */
  lemma VersionWarningIffCoerced(s: Settings, osName: string,
                                 edition: Result<JetEdition.Edition, JetEdition.JetHomeException>,
                                 project: Project, curYear: string)
    ensures var r := VersionInfoChecked(s, osName, edition, project, curYear);
      r.failure.None? && r.settings.addWindowsVersionInfo ==>
        (r.logged == [] <==> CoerceVersion(s.winVIVersion) == s.winVIVersion) &&
        (r.logged != [] ==>
           r.logged == [Warning(NotCompatibleExeVersionKey, [s.winVIVersion, CoerceVersion(s.winVIVersion)])])
  {
  }

  /** Outside Windows no version info is added and the version fields are
      left alone. */
  lemma NoVersionInfoOutsideWindows(s: Settings, osName: string,
                                    edition: Result<JetEdition.Edition, JetEdition.JetHomeException>,
                                    project: Project, curYear: string)
    requires !Utils.IsWindows(osName)
    ensures var r := VersionInfoChecked(s, osName, edition, project, curYear);
      !r.settings.addWindowsVersionInfo && r.logged == [] &&
      r.settings.winVIVersion == s.winVIVersion &&
      (s.packaging != ExcelsiorInstaller ==> r.settings == s.(addWindowsVersionInfo := false) && r.failure.None?)
  {
  }

  /** The Standard edition turns version info off with a warning. */
  lemma StandardEditionWarns(s: Settings, osName: string, project: Project, curYear: string)
    requires Utils.IsWindows(osName) && s.addWindowsVersionInfo
    ensures var r := VersionInfoChecked(s, osName, Success(JetEdition.Standard), project, curYear);
      !r.settings.addWindowsVersionInfo && r.logged == [Warning(NoVersionInfoInStandardKey, [])]
  {
  }

  /** A second check of checked settings changes nothing and logs
      nothing. */
  lemma VersionInfoSettles(s: Settings, osName: string,
                           edition: Result<JetEdition.Edition, JetEdition.JetHomeException>,
                           project: Project, curYear: string)
    requires VersionInfoChecked(s, osName, edition, project, curYear).failure.None?
    ensures var r := VersionInfoChecked(s, osName, edition, project, curYear);
      VersionInfoChecked(r.settings, osName, edition, project, curYear) == Checked(r.settings, [], None)
  {
    var r := VersionInfoChecked(s, osName, edition, project, curYear);
    if r.settings.addWindowsVersionInfo {
      CoerceVersionIdempotent(s.winVIVersion);
    }
  }

  // ---------------------------------------------------------------------
  // checkPrerequisites

  /** The packaging after the switch, and whether it was downgraded with a
      warning. */
  datatype PackagingChoice = PackagingChoice(packaging: string, downgraded: bool)

  /** The packaging switch: `zip` and `none` are kept; the Excelsior
      Installer becomes `zip` on OS X; anything else fails. */
  function CheckPackaging(packaging: string, osName: string): (r: Result<PackagingChoice, MojoException>)
    ensures r.Success? <==> packaging in {Zip, NoPackaging, ExcelsiorInstaller}
    ensures r.Failure? ==> r.error == MojoFailureException(UnknownPackagingModeKey, [packaging])
    ensures r.Success? ==>
      r.value.packaging in {Zip, NoPackaging, ExcelsiorInstaller} &&
      !(Utils.IsOSX(osName) && r.value.packaging == ExcelsiorInstaller)
    ensures r.Success? ==> (r.value.downgraded <==> r.value.packaging != packaging)
  {
    if packaging == Zip || packaging == NoPackaging then Success(PackagingChoice(packaging, false))
    else if packaging == ExcelsiorInstaller then
      if Utils.IsOSX(osName) then Success(PackagingChoice(Zip, true))
      else Success(PackagingChoice(packaging, false))
    else Failure(MojoFailureException(UnknownPackagingModeKey, [packaging]))
  }

  /** The settings after the check, what it logged, and the JET home or
      the exception. */
  datatype Prepared = Prepared(settings: Settings, logged: seq<Entry>, home: Result<Path, MojoException>)

  /** The main class in the compiler's notation. */
  function MainClassPath(mainClass: string): (r: string)
    ensures |r| == |mainClass| && '.' !in r
  {
    ReplaceChar(mainClass, '.', '/')
  }

  /** The settings once the main class is normalised, the output name
      defaulted and the packaging switch passed. */
  function Normalized(s: Settings, osName: string): (r: Settings)
    requires !Utils.IsEmpty(s.mainClass) && CheckPackaging(s.packaging, osName).Success?
    ensures r.mainClass.Some? && '.' !in r.mainClass.value && r.outputName.Some?
  {
    var main := MainClassPath(s.mainClass.value);
    s.(mainClass := Some(main),
       outputName := if s.outputName.None? then Some(FileName(main, '/')) else s.outputName,
       packaging := CheckPackaging(s.packaging, osName).value.packaging)
  }

  /** The checks of checkPrerequisites that come before the JET home: the
      main jar, the main class (normalised, and naming the output when no
      name is given), the packaging and the two licence files, in that
      order. */
  function Screened(h: Host, p: Parameters, s: Settings, project: Project): (r: Checked)
    ensures !h.Exists(p.mainJar) ==>
      var e := AbstractJetMojo.MainJarMissing(project.packaging, p.mainJar);
      r == Checked(s, [Entry(Error, MessageText(e.key, e.args))], Some(e))
    ensures h.Exists(p.mainJar) && Utils.IsEmpty(s.mainClass) ==>
      r == Checked(s, [], Some(MojoFailureException(AbstractJetMojo.MainNotSpecifiedKey, [])))
    ensures r.failure.None? <==>
      h.Exists(p.mainJar) && !Utils.IsEmpty(s.mainClass) && CheckPackaging(s.packaging, h.osName).Success? &&
      !(h.Exists(p.eula) && h.Exists(p.unicodeEula))
    ensures r.failure.None? ==> r.settings == Normalized(s, h.osName)
  {
    if !h.Exists(p.mainJar) then
      var e := AbstractJetMojo.MainJarMissing(project.packaging, p.mainJar);
      Checked(s, [Entry(Error, MessageText(e.key, e.args))], Some(e))
    else if Utils.IsEmpty(s.mainClass) then
      Checked(s, [], Some(MojoFailureException(AbstractJetMojo.MainNotSpecifiedKey, [])))
    else
      var main := MainClassPath(s.mainClass.value);
      var s1 := s.(mainClass := Some(main),
                   outputName := if s.outputName.None? then Some(FileName(main, '/')) else s.outputName);
      match CheckPackaging(s.packaging, h.osName)
      case Failure(e) => Checked(s1, [], Some(e))
      case Success(choice) =>
        var s2 := s1.(packaging := choice.packaging);
        var warned := if choice.downgraded then [Warning(NoExcelsiorInstallerOnOSXKey, [])] else [];
        if h.Exists(p.eula) && h.Exists(p.unicodeEula) then
          Checked(s2, warned, Some(MojoFailureException(BothEulaParametersKey, [])))
        else Checked(s2, warned, None)
  }

  /** checkPrerequisites: the checks above, then the JET home, then the
      version info. */
  function PrerequisitesChecked(h: Host, p: Parameters, s: Settings, project: Project,
                                edition: Result<JetEdition.Edition, JetEdition.JetHomeException>,
                                curYear: string): (r: Prepared)
    ensures !h.Exists(p.mainJar) ==>
      var e := AbstractJetMojo.MainJarMissing(project.packaging, p.mainJar);
      r == Prepared(s, [Entry(Error, MessageText(e.key, e.args))], Failure(e))
    ensures h.Exists(p.mainJar) && Utils.IsEmpty(s.mainClass) ==>
      r == Prepared(s, [], Failure(MojoFailureException(AbstractJetMojo.MainNotSpecifiedKey, [])))
    ensures r.home.Success? ==>
      !Utils.IsEmpty(s.mainClass) && r.settings.mainClass == Some(MainClassPath(s.mainClass.value)) &&
      r.settings.outputName.Some? && r.settings.packaging in {Zip, NoPackaging, ExcelsiorInstaller}
  {
    var c := Screened(h, p, s, project);
    if c.failure.Some? then Prepared(c.settings, c.logged, Failure(c.failure.value))
    else
      var a := HomeChecked(h, p, c.settings, project, edition, curYear);
      Prepared(a.settings, c.logged + a.logged, a.home)
  }

  /** The end of checkPrerequisites: the JET home, then the version
      info; the home is returned only when both succeed. */
  function HomeChecked(h: Host, p: Parameters, s: Settings, project: Project,
                       edition: Result<JetEdition.Edition, JetEdition.JetHomeException>,
                       curYear: string): (r: Prepared)
    ensures r.home.Success? <==>
      AbstractJetMojo.ResolveJetHome(h, p.jetHome).Success? &&
      VersionInfoChecked(s, h.osName, edition, project, curYear).failure.None?
    ensures r.home.Success? ==> r.home == AbstractJetMojo.ResolveJetHome(h, p.jetHome)
  {
    match AbstractJetMojo.ResolveJetHome(h, p.jetHome)
    case Failure(e) => Prepared(s, [], Failure(e))
    case Success(home) =>
      var v := VersionInfoChecked(s, h.osName, edition, project, curYear);
      Prepared(v.settings, v.logged, if v.failure.None? then Success(home) else Failure(v.failure.value))
  }

  /** The goal gets past its prerequisites exactly when every check
      passes. */
  lemma PrerequisitesPassIff(h: Host, p: Parameters, s: Settings, project: Project,
                             edition: Result<JetEdition.Edition, JetEdition.JetHomeException>, curYear: string)
    ensures PrerequisitesChecked(h, p, s, project, edition, curYear).home.Success? <==>
      h.Exists(p.mainJar) && !Utils.IsEmpty(s.mainClass) && CheckPackaging(s.packaging, h.osName).Success? &&
      !(h.Exists(p.eula) && h.Exists(p.unicodeEula)) &&
      AbstractJetMojo.ResolveJetHome(h, p.jetHome).Success? &&
      VersionInfoChecked(Normalized(s, h.osName), h.osName, edition, project, curYear).failure.None?
  {
  }

  /** The checks extend those every goal makes: once they pass, the JET
      home is the one the shared prerequisites give. */
  lemma PrerequisitesExtendShared(h: Host, p: Parameters, s: Settings, project: Project,
                                  edition: Result<JetEdition.Edition, JetEdition.JetHomeException>, curYear: string)
    ensures var r := PrerequisitesChecked(h, p, s, project, edition, curYear);
      r.home.Success? ==>
        r.home == AbstractJetMojo.Prerequisites(h, p.mainJar, project.packaging, s.mainClass, p.jetHome)
  {
  }

  /** The main class is normalised to slashes, and the default output
      name is its last segment. */
  lemma MainClassNormalised(h: Host, p: Parameters, s: Settings, project: Project,
                            edition: Result<JetEdition.Edition, JetEdition.JetHomeException>, curYear: string)
    ensures var r := PrerequisitesChecked(h, p, s, project, edition, curYear);
      r.home.Success? ==>
        '.' !in r.settings.mainClass.value &&
        (s.outputName.None? ==>
           '/' !in r.settings.outputName.value && EndsWith(r.settings.mainClass.value, r.settings.outputName.value)) &&
        (s.outputName.Some? ==> r.settings.outputName == s.outputName)
  {
  }

  /** Checking the checked settings again passes with the same JET home,
      changes nothing and logs nothing. */
  lemma PrerequisitesSettle(h: Host, p: Parameters, s: Settings, project: Project,
                            edition: Result<JetEdition.Edition, JetEdition.JetHomeException>, curYear: string)
    requires PrerequisitesChecked(h, p, s, project, edition, curYear).home.Success?
    ensures var r := PrerequisitesChecked(h, p, s, project, edition, curYear);
      PrerequisitesChecked(h, p, r.settings, project, edition, curYear) == Prepared(r.settings, [], r.home)
  {
    var r := PrerequisitesChecked(h, p, s, project, edition, curYear);
    var s2 := Normalized(s, h.osName);
    PrerequisitesPassIff(h, p, s, project, edition, curYear);
    assert r.settings == VersionInfoChecked(s2, h.osName, edition, project, curYear).settings;
    VersionInfoSettles(s2, h.osName, edition, project, curYear);
    var main := r.settings.mainClass.value;
    assert MainClassPath(main) == main;
    assert Normalized(r.settings, h.osName) == r.settings;
  }

  // ---------------------------------------------------------------------
  // Argument lists

  /** The Windows-only compiler options: the icon, when it is a file, and
      `-gui+` for a hidden console. */
  function WindowsOptions(osName: string, iconIsFile: bool, icon: Path, hideConsole: bool): (r: seq<string>)
    ensures !Utils.IsWindows(osName) ==> r == []
    ensures |r| <= 2
  {
    if Utils.IsWindows(osName) then
      (if iconIsFile then [icon] else []) + (if hideConsole then ["-gui+"] else [])
    else []
  }

  /** The five version-info options. */
  function VersionInfoOptions(s: Settings): (r: seq<string>)
    ensures |r| == 5
  {
    ["-versioninfocompanyname=" + s.vendor.GetOr("null"),
     "-versioninfoproductname=" + s.product.GetOr("null"),
     "-versioninfoproductversion=" + s.winVIVersion,
     "-versioninfolegalcopyright=" + s.winVICopyright.GetOr("null"),
     "-versioninfofiledescription=" + s.winVIDescription.GetOr("null")]
  }

  /** What compile appends to the dependency list before it runs the
      compiler. */
  function CompilerOptions(osName: string, iconIsFile: bool, icon: Path, hideConsole: bool, s: Settings)
    : (r: seq<string>)
    ensures |r| == |WindowsOptions(osName, iconIsFile, icon, hideConsole)| + 3 +
                   (if s.addWindowsVersionInfo then 5 else 0)
  {
    WindowsOptions(osName, iconIsFile, icon, hideConsole) +
    ["-main=" + s.mainClass.GetOr("null"), "-outputname=" + s.outputName.GetOr("null"), "-decor=ht"] +
    (if s.addWindowsVersionInfo then VersionInfoOptions(s) else [])
  }

  /** `-gui+` is passed exactly on Windows with a hidden console. An
      absolute icon path never starts with `-`. */
  lemma GuiOptionPresence(osName: string, iconIsFile: bool, icon: Path, hideConsole: bool, s: Settings)
    requires |icon| > 0 && icon[0] != '-'
    ensures "-gui+" in CompilerOptions(osName, iconIsFile, icon, hideConsole, s) <==>
      Utils.IsWindows(osName) && hideConsole
  {
    var m := "-main=" + s.mainClass.GetOr("null");
    var o := "-outputname=" + s.outputName.GetOr("null");
    assert "-gui+" != m by { assert m[1] == 'm'; }
    assert "-gui+" != o by { assert o[1] == 'o'; }
    assert "-gui+" !in VersionInfoOptions(s) by {
      forall x | x in VersionInfoOptions(s)
        ensures x[1] == 'v'
      {
      }
    }
  }

  /** The icon is passed exactly on Windows when it is a file. */
  lemma IconOptionPresence(osName: string, iconIsFile: bool, icon: Path, hideConsole: bool, s: Settings)
    requires |icon| > 0 && icon[0] != '-'
    ensures icon in CompilerOptions(osName, iconIsFile, icon, hideConsole, s) <==>
      Utils.IsWindows(osName) && iconIsFile
  {
    var m := "-main=" + s.mainClass.GetOr("null");
    var o := "-outputname=" + s.outputName.GetOr("null");
    assert icon != m && icon != o && icon != "-gui+" && icon != "-decor=ht";
    assert icon !in VersionInfoOptions(s) by {
      forall x | x in VersionInfoOptions(s)
        ensures x[0] == '-'
      {
      }
    }
  }

  /** The version-info options are passed exactly when version info is
      added. */
  lemma VersionInfoPresence(osName: string, iconIsFile: bool, icon: Path, hideConsole: bool, s: Settings)
    requires |icon| > 0 && icon[0] != '-'
    ensures var pv := "-versioninfoproductversion=" + s.winVIVersion;
      pv in CompilerOptions(osName, iconIsFile, icon, hideConsole, s) <==> s.addWindowsVersionInfo
  {
    var pv := "-versioninfoproductversion=" + s.winVIVersion;
    var m := "-main=" + s.mainClass.GetOr("null");
    var o := "-outputname=" + s.outputName.GetOr("null");
    assert pv[1] == 'v' && m[1] == 'm' && o[1] == 'o';
    assert pv != icon && pv != "-gui+" && pv != "-decor=ht";
    assert VersionInfoOptions(s)[2] == pv;
  }

  /** The packager arguments that lay out the application directory. */
  function AppDirArgs(osName: string, s: Settings, appDir: Path): (r: seq<string>)
    ensures |r| == 5 && r[3] == "-target" && r[4] == appDir
    ensures StartsWith(r[1], s.outputName.GetOr("null"))
  {
    ["-add-file", Utils.MangleExeName(osName, s.outputName.GetOr("null")), "/", "-target", appDir]
  }

  /** The licence options of the installer: the licence file when it
      exists, else the Unicode one when that exists. */
  function EulaOptions(eulaExists: bool, eula: Path, unicodeExists: bool, unicodeEula: Path): (r: seq<string>)
  {
    if eulaExists then ["-eula", eula]
    else if unicodeExists then ["-unicode-eula", unicodeEula]
    else []
  }

  /** Where the installer is written: the final name as an executable,
      in the JET output directory. */
  function InstallerTarget(osName: string, sep: char, jetOutputDir: Path, finalName: string): (r: Path)
    ensures Within(r, jetOutputDir, sep) && EndsWith(r, Utils.ExeFileExtension(osName))
  {
    var name := Utils.MangleExeName(osName, finalName);
    assert name[|finalName|..] == Utils.ExeFileExtension(osName);
    var r := Child(jetOutputDir, sep, name);
    assert r[|r| - |Utils.ExeFileExtension(osName)|..] == name[|finalName|..];
    r
  }

  /** The packager arguments that build the Excelsior Installer. */
  function InstallerArgs(osName: string, eulaOptions: seq<string>, splashExists: bool, splash: Path,
                         s: Settings, version: string, target: Path): (r: seq<string>)
    ensures |r| == |eulaOptions| + (if Utils.IsWindows(osName) && splashExists then 2 else 0) + 13
    ensures r[..|eulaOptions|] == eulaOptions
    ensures r[|r| - 2..] == ["-target", target]
  {
    eulaOptions + (if Utils.IsWindows(osName) && splashExists then ["-splash", splash] else []) +
    ["-add-file", Utils.MangleExeName(osName, s.outputName.GetOr("null")), "/",
     "-backend", ExcelsiorInstaller,
     "-company", s.vendor.GetOr("null"),
     "-product", s.product.GetOr("null"),
     "-version", version,
     "-target", target]
  }

  /** At most one licence is passed to the installer: the plain licence
      when its file exists, otherwise the Unicode one when its file exists,
      otherwise none. */
  lemma OneLicence(eulaExists: bool, eula: Path, unicodeExists: bool, unicodeEula: Path)
    ensures var r := EulaOptions(eulaExists, eula, unicodeExists, unicodeEula);
      |r| == (if eulaExists || unicodeExists then 2 else 0) &&
      (|r| == 2 ==> (r[0] == "-eula" <==> eulaExists) && (r[0] == "-unicode-eula" <==> !eulaExists)) &&
      (eulaExists ==> r[1] == eula) && (!eulaExists && unicodeExists ==> r[1] == unicodeEula)
  {
    assert "-eula" != "-unicode-eula" by {
      assert "-eula"[1] != "-unicode-eula"[1];
    }
  }

  // ---------------------------------------------------------------------
  // The zip archive

  /** `0100777`: a regular file, readable, writable and executable by
      all. */
  const UnixExecutableMode: bv16 := 0x81FF

  /** One archive entry: its name and the Unix mode it carries, if any. */
  datatype ZipEntry = ZipEntry(name: string, unixMode: Option<bv16>)

  /** The external file attributes (PKWARE APPNOTE.TXT section 4.4.15)
      Commons Compress records with a Unix mode: the mode in the high
      16 bits, and the MS-DOS read-only bit exactly when the owner may not
      write. */
  function ExternalAttributes(mode: bv16): (r: bv32)
    ensures (r >> 16) as bv16 == mode
    ensures r & 1 == 1 <==> mode & 0x80 == 0
    ensures r & 0xFFFE == 0
  {
    ((mode as bv32) << 16) | (if mode & 0x80 == 0 then 1 else 0)
  }

  /** An executable's entry is not marked read-only. */
  lemma ExecutableEntryAttributes()
    ensures ExternalAttributes(UnixExecutableMode) == 0x81FF_0000
  {
  }

  /** The archive entry of a file below the archived directory. */
  function ZipEntryOf(t: Tree, root: Path, sep: char, osName: string, p: Path): (r: ZipEntry)
    requires p in t && Within(p, root, sep)
    ensures root + [sep] + r.name == p
    ensures r.unixMode.Some? <==> Utils.IsUnix(osName) && t[p].executable
  {
    ZipEntry(Relative(p, root, sep),
             if Utils.IsUnix(osName) && t[p].executable then Some(UnixExecutableMode) else None)
  }

  /** compressDirectoryToZipfile: an entry for each regular file the walk
      reaches below the directory, named by its path relative to it. */
  function ZipEntries(t: Tree, denied: set<Path>, root: Path, sep: char, osName: string): (r: set<ZipEntry>)
    requires IsDirectory(t, root)
    ensures forall p :: p in Utils.Walk(t, denied, root, sep) && t[p].kind == RegularFile ==>
      Within(p, root, sep) && ZipEntryOf(t, root, sep, osName, p) in r
  {
    set p | p in Utils.Walk(t, denied, root, sep) && t[p].kind == RegularFile :: ZipEntryOf(t, root, sep, osName, p)
  }

  /** The archive can be written: the directory can be listed, every entry
      the walk reaches can be read, and the zip file can be created. */
  predicate CanZip(t: Tree, denied: set<Path>, root: Path, sep: char, target: Path) {
    IsDirectory(t, root) && target !in denied &&
    forall p :: p in Utils.Walk(t, denied, root, sep) ==> p !in denied
  }

  /** Every entry comes from a file of the directory, and no two files
      share an entry name. */
  lemma ZipEntriesExact(t: Tree, denied: set<Path>, root: Path, sep: char, osName: string, e: ZipEntry)
    requires IsDirectory(t, root)
    ensures e in ZipEntries(t, denied, root, sep, osName) <==>
      var p := root + [sep] + e.name;
      p in Utils.Walk(t, denied, root, sep) && t[p].kind == RegularFile && e == ZipEntryOf(t, root, sep, osName, p)
  {
    var p := root + [sep] + e.name;
    if e in ZipEntries(t, denied, root, sep, osName) {
      var q :| q in Utils.Walk(t, denied, root, sep) && t[q].kind == RegularFile &&
               ZipEntryOf(t, root, sep, osName, q) == e;
      assert q == p;
    } else if p in Utils.Walk(t, denied, root, sep) && t[p].kind == RegularFile {
      assert Within(p, root, sep);
    }
  }

  /** Modes are only recorded on Unix. */
  lemma NoModesOffUnix(t: Tree, denied: set<Path>, root: Path, sep: char, osName: string)
    requires IsDirectory(t, root) && !Utils.IsUnix(osName)
    ensures forall e :: e in ZipEntries(t, denied, root, sep, osName) ==> e.unixMode.None?
  {
  }
}

