/** JetHome (com.excelsiorjet.JetHome): deciding whether a directory is an
    Excelsior JET installation of a supported version, and finding one from
    an explicit parameter, the `jet.home` system property, the `JET_HOME`
    environment variable or the `PATH`. The tool names `jc` and `xpack`
    belong to JetCompiler and JetPackager, which are not part of this
    model. */
module JetHome {
  import opened Wrappers
  import opened JavaLang
  import opened Files
  import opened Host
  import Utils

  const MinSupportedJetVersion: int := 1100
  const MarkerPrefix: string := "jet"
  const MarkerSuffix: string := ".home"
  const BinDir: string := "bin"
  const JetCompiler: string := "jc"
  const JetPackager: string := "xpack"

  /** Which setting a rejected home came from; it selects the prefix of
      the error message. */
  datatype Origin = PluginParameter | ViaVMProp | ViaEnvVar

  /** JetHomeException, by message key; NullPointer is the unchecked
      exception the code as written can raise. */
  datatype JetHomeError =
    | BadJetHomeDir(origin: Origin, home: Path)
    | UnsupportedJetHomeDir(origin: Origin, home: Path)
    | JetNotFound
    | NullPointer

  // ---------------------------------------------------------------------
  // The version marker jet<version>.home

  predicate IsMarker(name: string) {
    StartsWith(name, MarkerPrefix) && EndsWith(name, MarkerSuffix)
  }

  /** Prefix and suffix of a marker cannot overlap, so the text between
      them is always there (the substring call never throws). */
  lemma MarkerLength(name: string)
    requires IsMarker(name)
    ensures |name| >= |MarkerPrefix| + |MarkerSuffix|
  {
    assert name[|name| - 5] == '.' by {
      assert name[|name| - 5..][0] == '.';
    }
    assert forall j :: 0 <= j < 3 ==> name[j] != '.' by {
      assert name[..3] == "jet";
    }
  }

  /** The text between `jet` and `.home`. */
  function MarkerMiddle(name: string): (r: string)
    requires IsMarker(name)
    ensures name == MarkerPrefix + r + MarkerSuffix
  {
    MarkerLength(name);
    var r := name[3..|name| - 5];
    assert name == name[..3] + r + name[|name| - 5..];
    r
  }

  /** The version one marker names: its middle parsed as an int, or -1
      when that does not parse. */
  function MarkerVersion(name: string): (r: int)
    requires IsMarker(name)
    ensures ParseInt(MarkerMiddle(name)).Some? ==> r == ParseInt(MarkerMiddle(name)).value
    ensures ParseInt(MarkerMiddle(name)).None? ==> r == -1
  {
    match ParseInt(MarkerMiddle(name))
    case Some(v) => v
    case None => -1
  }

  /** `names[i]` is the first marker of the listing. */
  predicate FirstMarker(names: seq<string>, i: int) {
    0 <= i < |names| && IsMarker(names[i]) && forall j :: 0 <= j < i ==> !IsMarker(names[j])
  }

  /** The loop of getJetVersion over a listing of `bin`: the first marker
      decides, whether or not it parses; no marker gives -1. */
  function ListingVersion(names: seq<string>): (r: int)
    ensures (forall i :: 0 <= i < |names| ==> !IsMarker(names[i])) ==> r == -1
    ensures forall i :: FirstMarker(names, i) ==> r == MarkerVersion(names[i])
    decreases |names|
  {
    if |names| == 0 then -1
    else if IsMarker(names[0]) then MarkerVersion(names[0])
    else
      var r := ListingVersion(names[1..]);
      assert forall i :: FirstMarker(names, i) ==> FirstMarker(names[1..], i - 1);
      r
  }

  /** getJetBinDirectory: `bin` directly below the home. */
  function GetJetBinDirectory(h: Host, home: Path): (r: Path)
    ensures Within(r, home, h.sep) && Relative(r, home, h.sep) == BinDir
  {
    Child(home, h.sep, BinDir)
  }

  /** getJetVersion: -1 when `bin` cannot be listed, otherwise what its
      listing says. */
  function GetJetVersion(h: Host, home: Path): (r: int)
    ensures h.ListNames(GetJetBinDirectory(h, home)).None? ==> r == -1
    ensures h.ListNames(GetJetBinDirectory(h, home)).Some? ==>
      r == ListingVersion(h.listings[GetJetBinDirectory(h, home)])
  {
    match h.ListNames(GetJetBinDirectory(h, home))
    case None => -1
    case Some(names) => ListingVersion(names)
  }

  predicate IsSupportedJetVersion(h: Host, home: Path) {
    GetJetVersion(h, home) >= MinSupportedJetVersion
  }

  /** isJetBinDir: `jet.config`, `jc` and `xpack` (executables named for
      the host) all exist in `bin`. */
  predicate IsJetBinDir(h: Host, bin: Path) {
    h.Exists(Child(bin, h.sep, "jet.config")) &&
    h.Exists(Child(bin, h.sep, Utils.MangleExeName(h.osName, JetCompiler))) &&
    h.Exists(Child(bin, h.sep, Utils.MangleExeName(h.osName, JetPackager)))
  }

  predicate IsJetDir(h: Host, home: Path) {
    IsJetBinDir(h, GetJetBinDirectory(h, home))
  }

  /** checkJetHome: the installation test comes first and gives the "bad
      home" error; only an installation is tested for its version. */
  function CheckJetHome(h: Host, home: Path, origin: Origin): (r: Outcome<JetHomeError>)
    ensures r.Pass? <==> IsJetDir(h, home) && IsSupportedJetVersion(h, home)
    ensures !IsJetDir(h, home) ==> r == Fail(BadJetHomeDir(origin, home))
    ensures IsJetDir(h, home) && !IsSupportedJetVersion(h, home) ==> r == Fail(UnsupportedJetHomeDir(origin, home))
  {
    if !IsJetDir(h, home) then Fail(BadJetHomeDir(origin, home))
    else if !IsSupportedJetVersion(h, home) then Fail(UnsupportedJetHomeDir(origin, home))
    else Pass
  }

  // ---------------------------------------------------------------------
  // Resolution

  /** `~/` at the start of an explicit home means the user's home, on Unix
      only. An unset `user.home` concatenates as the text "null", as Java
      string concatenation does. */
  function ExpandHome(h: Host, home: Path): (r: Path)
    ensures !(Utils.IsUnix(h.osName) && StartsWith(home, "~/")) ==> r == home
    ensures Utils.IsUnix(h.osName) && StartsWith(home, "~/") ==>
      r == h.Property("user.home").GetOr("null") + home[1..]
  {
    if Utils.IsUnix(h.osName) && StartsWith(home, "~/") then h.Property("user.home").GetOr("null") + home[1..]
    else home
  }

  /** The explicit constructor: the expanded path, when it is a supported
      installation. */
  function ResolveExplicit(h: Host, home: Path): (r: Result<Path, JetHomeError>)
    ensures r.Success? <==> CheckJetHome(h, ExpandHome(h, home), PluginParameter).Pass?
    ensures r.Success? ==> r.value == ExpandHome(h, home)
    ensures r.Failure? ==> r.error == CheckJetHome(h, ExpandHome(h, home), PluginParameter).error
  {
    var e := ExpandHome(h, home);
    match CheckJetHome(h, e, PluginParameter)
    case Pass => Success(e)
    case Fail(err) => Failure(err)
  }

  /** trySetJetHome: an unset or empty value is passed over (None); any
      other value decides, as a home or as an error. */
  function TrySetJetHome(h: Host, value: Option<string>, origin: Origin): (r: Option<Result<Path, JetHomeError>>)
    ensures r.None? <==> Utils.IsEmpty(value)
    ensures r.Some? ==> (r.value.Success? <==> CheckJetHome(h, value.value, origin).Pass?)
    ensures r.Some? && r.value.Success? ==> r.value.value == value.value
    ensures r.Some? && r.value.Failure? ==> r.value.error == CheckJetHome(h, value.value, origin).error
  {
    if Utils.IsEmpty(value) then None
    else match CheckJetHome(h, value.value, origin)
      case Pass => Some(Success(value.value))
      case Fail(err) => Some(Failure(err))
  }

  /** The home one PATH entry names, as written: the absolute form of the
      entry's parent, when the entry is a JET bin directory and that parent
      holds a supported version. File.getParentFile is null for an entry
      without a separator, such as `bin`, and the scan then throws. */
  function PathEntryHomeAsWritten(h: Host, p: Path): (r: Result<Option<Path>, JetHomeError>)
    ensures r.Failure? <==> IsJetBinDir(h, p) && h.Parent(p).None?
    ensures r.Failure? ==> r.error == NullPointer
    ensures r.Success? && r.value.Some? ==>
      IsJetBinDir(h, p) && r.value.value == h.AbsolutePath(h.Parent(p).value) &&
      IsSupportedJetVersion(h, r.value.value)
  {
    if !IsJetBinDir(h, p) then Success(None)
    else match h.Parent(p)
      case None => Failure(NullPointer)
      case Some(parent) =>
        var jetPath := h.AbsolutePath(parent);
        if IsSupportedJetVersion(h, jetPath) then Success(Some(jetPath)) else Success(None)
  }

  /** The home one PATH entry names, corrected: the parent of the entry's
      absolute form, which exists for every relative entry. */
  function PathEntryHome(h: Host, p: Path): (r: Option<Path>)
    ensures r.Some? ==>
      IsJetBinDir(h, p) && h.Parent(h.AbsolutePath(p)) == r && IsSupportedJetVersion(h, r.value)
    ensures (IsJetBinDir(h, p) && h.Parent(h.AbsolutePath(p)).Some? &&
             IsSupportedJetVersion(h, h.Parent(h.AbsolutePath(p)).value)) ==> r.Some?
  {
    if !IsJetBinDir(h, p) then None
    else match h.Parent(h.AbsolutePath(p))
      case None => None
      case Some(jetPath) => if IsSupportedJetVersion(h, jetPath) then Some(jetPath) else None
  }

  /** What each PATH entry names, in PATH order. */
  function EntryHomes(h: Host, entries: seq<Path>): (r: seq<Option<Path>>)
    ensures |r| == |entries|
    ensures forall j :: 0 <= j < |entries| ==> r[j] == PathEntryHome(h, entries[j])
  {
    seq(|entries|, j requires 0 <= j < |entries| => PathEntryHome(h, entries[j]))
  }

  /** `homes[j]` is the first entry from `i` on naming a home. */
  predicate FirstHome(homes: seq<Option<Path>>, i: int, j: int) {
    0 <= i <= j < |homes| && homes[j].Some? && forall k :: i <= k < j ==> homes[k].None?
  }

  /** The loop of the PATH scan from entry `i` on: the first entry naming
      a home wins; entries that do not are skipped silently; none gives
      JetNotFound. */
  function ScanPath(homes: seq<Option<Path>>, i: nat): (r: Result<Path, JetHomeError>)
    requires i <= |homes|
    ensures r.Failure? ==> r.error == JetNotFound
    ensures r.Failure? <==> forall j :: i <= j < |homes| ==> homes[j].None?
    ensures r.Success? ==> Some(r.value) in homes[i..]
    decreases |homes| - i
  {
    if i == |homes| then Failure(JetNotFound)
    else match homes[i]
      case Some(home) => Success(home)
      case None =>
        var r := ScanPath(homes, i + 1);
        assert r.Success? ==> Some(r.value) in homes[i + 1..];
        assert homes[i..] == [homes[i]] + homes[i + 1..];
        r
  }

  /** The first entry naming a home decides the scan. */
  lemma {:induction false} ScanFindsFirst(homes: seq<Option<Path>>, i: nat, j: int)
    requires i <= |homes| && FirstHome(homes, i, j)
    ensures ScanPath(homes, i) == Success(homes[j].value)
    decreases |homes| - i
  {
    if i < j {
      ScanFindsFirst(homes, i + 1, j);
    }
  }

  /** The PATH scan as written, which throws at the first JET bin
      directory entry without a separator. */
  function ScanPathAsWritten(h: Host, entries: seq<Path>, i: nat): (r: Result<Path, JetHomeError>)
    requires i <= |entries|
    decreases |entries| - i
  {
    if i == |entries| then Failure(JetNotFound)
    else match PathEntryHomeAsWritten(h, entries[i])
      case Failure(e) => Failure(e)
      case Success(Some(home)) => Success(home)
      case Success(None) => ScanPathAsWritten(h, entries, i + 1)
  }

  /** The PATH entries, split at the path separator; an unset PATH makes
      String.split throw. */
  function PathEntries(h: Host): (r: Option<seq<Path>>)
    ensures r.Some? <==> "PATH" in h.env
  {
    match h.Getenv("PATH")
    case None => None
    case Some(path) => Some(Split(path, h.pathSep))
  }

  /** The default constructor: `jet.home`, then `JET_HOME`, then the PATH
      scan. A set, non-empty value decides without looking further. */
  function ResolveDefault(h: Host): (r: Result<Path, JetHomeError>)
    ensures r.Success? ==> IsSupportedJetVersion(h, r.value)
  {
    match TrySetJetHome(h, h.Property("jet.home"), ViaVMProp)
    case Some(res) => res
    case None =>
      match TrySetJetHome(h, h.Getenv("JET_HOME"), ViaEnvVar)
      case Some(res) => res
      case None =>
        match PathEntries(h)
        case None => Failure(NullPointer)
        case Some(entries) => ScanPath(EntryHomes(h, entries), 0)
  }

  /** The default constructor with the PATH scan as written. */
  function ResolveDefaultAsWritten(h: Host): (r: Result<Path, JetHomeError>) {
    match TrySetJetHome(h, h.Property("jet.home"), ViaVMProp)
    case Some(res) => res
    case None =>
      match TrySetJetHome(h, h.Getenv("JET_HOME"), ViaEnvVar)
      case Some(res) => res
      case None =>
        match PathEntries(h)
        case None => Failure(NullPointer)
        case Some(entries) => ScanPathAsWritten(h, entries, 0)
  }

  // ---------------------------------------------------------------------
  // The object

  class JetHome {
    var jetHome: Path

    constructor (home: Path)
      ensures jetHome == home
    {
      jetHome := home;
    }

    function GetJetHome(): Path
      reads this
    {
      jetHome
    }

    /** getJetBinDirectory of this home. */
    function BinDirectory(h: Host): (r: Path)
      reads this
      ensures Within(r, jetHome, h.sep) && Relative(r, jetHome, h.sep) == BinDir
    {
      GetJetBinDirectory(h, jetHome)
    }
  }

  /** `new JetHome(home)`: a home object for the expanded path, or the
      exception the check throws. */
  method NewJetHome(h: Host, home: Path) returns (r: Result<JetHome, JetHomeError>)
    ensures r.Success? ==> fresh(r.value) && ResolveExplicit(h, home) == Success(r.value.jetHome)
    ensures r.Failure? ==> ResolveExplicit(h, home) == Failure(r.error)
  {
    var jetHome := home;
    if Utils.IsUnix(h.osName) && StartsWith(jetHome, "~/") {
      jetHome := h.Property("user.home").GetOr("null") + jetHome[1..];
    }
    var check := CheckJetHome(h, jetHome, PluginParameter);
    if check.Fail? {
      return Failure(check.error);
    }
    var o := new JetHome(jetHome);
    return Success(o);
  }

  /** `new JetHome()`: the properties, then the PATH entries in order, with
      an early exit at the first one naming a supported home. */
  method DetectJetHome(h: Host) returns (r: Result<JetHome, JetHomeError>)
    ensures r.Success? ==> fresh(r.value) && ResolveDefault(h) == Success(r.value.jetHome)
    ensures r.Failure? ==> ResolveDefault(h) == Failure(r.error)
  {
    var fromProperty := TrySetJetHome(h, h.Property("jet.home"), ViaVMProp);
    var fromEnv := TrySetJetHome(h, h.Getenv("JET_HOME"), ViaEnvVar);
    var found := if fromProperty.Some? then fromProperty else fromEnv;
    if found.Some? {
      if found.value.Failure? {
        return Failure(found.value.error);
      }
      var o := new JetHome(found.value.value);
      return Success(o);
    }
    var path := h.Getenv("PATH");
    if path.None? {
      return Failure(NullPointer);
    }
    var scanned := ScanPathEntries(h, Split(path.value, h.pathSep));
    if scanned.Failure? {
      return Failure(scanned.error);
    }
    var o := new JetHome(scanned.value);
    return Success(o);
  }

  /** The PATH loop of `new JetHome()`, with an early exit at the first
      entry naming a supported home. */
  method ScanPathEntries(h: Host, entries: seq<Path>) returns (r: Result<Path, JetHomeError>)
    ensures r == ScanPath(EntryHomes(h, entries), 0)
  {
    ghost var homes := EntryHomes(h, entries);
    var i := 0;
    while i < |entries|
      invariant 0 <= i <= |entries|
      invariant ScanPath(homes, i) == ScanPath(homes, 0)
    {
      var home := PathEntryHome(h, entries[i]);
      if home.Some? {
        return Success(home.value);
      }
      i := i + 1;
    }
    return Failure(JetNotFound);
  }

  // ---------------------------------------------------------------------
  // Properties

  /** The marker the installer writes for version `v` names `v`. */
  lemma MarkerRoundTrip(v: int)
    requires IsInt32(v)
    ensures IsMarker(MarkerPrefix + IntToString(v) + MarkerSuffix)
    ensures MarkerVersion(MarkerPrefix + IntToString(v) + MarkerSuffix) == v
  {
    var name := MarkerPrefix + IntToString(v) + MarkerSuffix;
    assert name[..3] == MarkerPrefix;
    assert name[|name| - 5..] == MarkerSuffix;
    assert MarkerMiddle(name) == IntToString(v);
    ParseIntIntToString(v);
  }

  /** A marker with nothing between `jet` and `.home` does not parse. */
  lemma EmptyMarker()
    ensures IsMarker("jet.home") && MarkerVersion("jet.home") == -1
  {
    assert MarkerMiddle("jet.home") == "";
  }

  lemma ConfigIsNoMarker()
    ensures !IsMarker("jet.config")
  {
    assert "jet.config"[|"jet.config"| - 5..] != MarkerSuffix;
  }

  /** The installer's marker for version `v` in a listing after a file
      that is no marker decides the version. */
  lemma SecondEntryDecides(v: int, names: seq<string>)
    requires IsInt32(v)
    requires |names| >= 2 && !IsMarker(names[0]) && names[1] == MarkerPrefix + IntToString(v) + MarkerSuffix
    ensures ListingVersion(names) == v
  {
    MarkerRoundTrip(v);
    assert FirstMarker(names, 1);
  }

  lemma Marker1100()
    ensures MarkerPrefix + IntToString(1100) + MarkerSuffix == "jet1100.home"
  {
    assert IntToString(1100) == "1100";
  }

  lemma Marker1050()
    ensures MarkerPrefix + IntToString(1050) + MarkerSuffix == "jet1050.home"
  {
    assert IntToString(1050) == "1050";
  }

  /** A home whose `bin` lists `jet1100.home` is supported; one whose
      `bin` lists `jet1050.home` instead is not. */
  lemma SupportedBoundary(h: Host, home: Path)
    requires GetJetBinDirectory(h, home) in h.listings
    requires h.listings[GetJetBinDirectory(h, home)] == ["jet.config", "jet1100.home", "jc", "xpack"]
    ensures GetJetVersion(h, home) == 1100 && IsSupportedJetVersion(h, home)
    ensures !IsSupportedJetVersion(h.(listings := h.listings[GetJetBinDirectory(h, home) :=
      ["jet.config", "jet1050.home", "jc", "xpack"]]), home)
  {
    ConfigIsNoMarker();
    Marker1100();
    SecondEntryDecides(1100, ["jet.config", "jet1100.home", "jc", "xpack"]);
    Marker1050();
    SecondEntryDecides(1050, ["jet.config", "jet1050.home", "jc", "xpack"]);
  }

  /** A home that cannot be listed or has no parsable marker is never
      supported. */
  lemma NoVersionUnsupported(h: Host, home: Path)
    requires GetJetVersion(h, home) == -1
    ensures !IsSupportedJetVersion(h, home)
    ensures CheckJetHome(h, home, PluginParameter).Fail?
  {
  }

  /** A non-empty `jet.home` decides the default resolution alone: the
      environment, JET_HOME and PATH included, is not consulted. */
  lemma VMPropertyDecides(h: Host, env: map<string, string>)
    requires !Utils.IsEmpty(h.Property("jet.home"))
    ensures ResolveDefault(h) == ResolveDefault(h.(env := env))
    ensures ResolveDefault(h).Success? <==> CheckJetHome(h, h.props["jet.home"], ViaVMProp).Pass?
  {
  }

  /** With `jet.home` unset or empty, a non-empty `JET_HOME` decides, and
      PATH is not consulted. */
  lemma EnvVarDecides(h: Host, path: string)
    requires Utils.IsEmpty(h.Property("jet.home")) && !Utils.IsEmpty(h.Getenv("JET_HOME"))
    ensures ResolveDefault(h) == ResolveDefault(h.(env := h.env["PATH" := path]))
    ensures ResolveDefault(h).Success? <==> CheckJetHome(h, h.env["JET_HOME"], ViaEnvVar).Pass?
  {
    var h2 := h.(env := h.env["PATH" := path]);
    assert h2.Getenv("JET_HOME") == h.Getenv("JET_HOME");
  }

  /** A home that passes the check is accepted as given by the explicit
      constructor (unless it starts with `~/` on Unix, which would be
      expanded): so re-resolving a home found through `jet.home` or
      `JET_HOME` gives the same home. */
  lemma ExplicitAcceptsValid(h: Host, home: Path)
    requires CheckJetHome(h, home, ViaVMProp).Pass?
    requires !(Utils.IsUnix(h.osName) && StartsWith(home, "~/"))
    ensures ResolveExplicit(h, home) == Success(home)
  {
  }

  lemma ReresolveIdempotent(h: Host, home: Path)
    requires ResolveDefault(h) == Success(home) && IsJetDir(h, home)
    requires !(Utils.IsUnix(h.osName) && StartsWith(home, "~/"))
    ensures ResolveExplicit(h, home) == Success(home)
  {
  }

  /** The explicit constructor never accepts a path that is not a
      supported installation. */
  lemma ExplicitRejectsBad(h: Host, home: Path)
    requires !IsJetDir(h, ExpandHome(h, home))
    ensures ResolveExplicit(h, home) == Failure(BadJetHomeDir(PluginParameter, ExpandHome(h, home)))
  {
  }

  // ---------------------------------------------------------------------
  // A relative PATH entry

  /** The PATH entry `bin` of a user working in the JET home: as written,
      File.getParentFile is null for it and the default constructor throws
      a NullPointerException. */
  lemma NullParentAsWritten(h: Host)
    requires "jet.home" !in h.props && "JET_HOME" !in h.env
    requires "PATH" in h.env && h.env["PATH"] == "bin"
    requires h.sep == '/' && h.pathSep == ':' && !Utils.IsWindows(h.osName)
    requires IsJetBinDir(h, "bin")
    ensures ResolveDefaultAsWritten(h) == Failure(NullPointer)
  {
    SplitWithoutSeparator("bin", ':');
    assert h.Parent("bin").None? by {
      assert LastIndexOf("bin", '/') == -1;
    }
  }

  /** The same host with the corrected scan: the entry is made absolute
      first, and its parent is the working directory, a supported home. */
  lemma RelativeBinEntryFound(h: Host)
    requires "jet.home" !in h.props && "JET_HOME" !in h.env
    requires "PATH" in h.env && h.env["PATH"] == "bin"
    requires h.sep == '/' && h.pathSep == ':' && !Utils.IsWindows(h.osName)
    requires IsJetBinDir(h, "bin")
    requires |h.cwd| > 1 && h.cwd[0] == '/' && h.cwd[|h.cwd| - 1] != '/'
    requires IsSupportedJetVersion(h, h.cwd)
    ensures ResolveDefault(h) == Success(h.cwd)
  {
    SplitWithoutSeparator("bin", ':');
    BinEntryNamesWorkingDirectory(h);
    var homes := EntryHomes(h, ["bin"]);
    assert homes == [Some(h.cwd)];
  }

  lemma BinEntryNamesWorkingDirectory(h: Host)
    requires h.sep == '/' && !Utils.IsWindows(h.osName)
    requires IsJetBinDir(h, "bin")
    requires |h.cwd| > 1 && h.cwd[0] == '/' && h.cwd[|h.cwd| - 1] != '/'
    requires IsSupportedJetVersion(h, h.cwd)
    ensures PathEntryHome(h, "bin") == Some(h.cwd)
  {
    assert h.AbsolutePath("bin") == h.cwd + "/bin" by {
      assert !EndsWith(h.cwd, [h.sep]);
    }
    ParentOfChild(h, h.cwd, "bin");
    assert h.cwd + "/bin" == h.cwd + [h.sep] + "bin";
  }

  lemma SplitWithoutSeparator(s: string, c: char)
    requires c !in s
    ensures Split(s, c) == [s]
  {
  }
}
