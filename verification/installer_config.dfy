/** ExcelsiorInstallerConfig: the licence-file settings of an Excelsior
    Installer package, their defaults, and the packager flag that passes
    the licence with its encoding. */
module InstallerConfig {
  import opened Wrappers
  import opened Files
  import opened Mojo
  import opened JavaLang
  import EncodingDetector

  const AutoDetectEulaEncoding: string := "autodetect"
  const UnicodeEulaFlag: string := "-unicode-eula"
  const EulaFlagText: string := "-eula"

  /** The values `eulaEncoding` may take. */
  const ValidEulaEncodings: set<string> := {"US-ASCII", "UTF-16LE", AutoDetectEulaEncoding}

  const UnsupportedEncodingKey: string := "JetMojo.Package.Eula.UnsupportedEncoding"
  const EncodingDoesNotMatchActualKey: string := "JetMojo.Package.Eula.EncodingDoesNotMatchActual"

  /** `new File(basedir, "src/main/jetresources/" + name)`. */
  function JetResource(basedir: Path, sep: char, name: string): (r: Path)
    ensures Within(r, basedir, sep)
    ensures r[|basedir| + 1..] == "src" + [sep] + "main" + [sep] + "jetresources" + [sep] + name
  {
    Child(basedir, sep, "src" + [sep] + "main" + [sep] + "jetresources" + [sep] + name)
  }

  const IconName: string := "icon.ico"
  const EulaName: string := "eula.txt"
  const SplashName: string := "installerSplash.bmp"

  /** The licence default of fillDefaults as written: the icon file. */
  function DefaultEulaAsWritten(basedir: Path, sep: char): Path {
    JetResource(basedir, sep, IconName)
  }

  /** The licence default the parameter's documentation names, and the
      model's: `eula.txt` among the project's JET resources. */
  function DefaultEula(basedir: Path, sep: char): Path {
    JetResource(basedir, sep, EulaName)
  }

  /** As written, the default licence is the application icon, the same
      file the `icon` parameter defaults to, and not `eula.txt`. */
  lemma DefaultEulaIsIconAsWritten(basedir: Path, sep: char)
    ensures EndsWith(DefaultEulaAsWritten(basedir, sep), IconName)
    ensures DefaultEulaAsWritten(basedir, sep) != DefaultEula(basedir, sep)
  {
    var r := DefaultEulaAsWritten(basedir, sep);
    var e := DefaultEula(basedir, sep);
    assert r[|r| - |IconName|..] == IconName;
    assert |r| == |e| ==> r[|r| - 8] == 'i' && e[|e| - 8] == 'e';
  }

  /** The corrected default is the licence text file, distinct from the
      icon, and lies among the project's JET resources. */
  lemma DefaultEulaIsLicenceText(basedir: Path, sep: char)
    ensures EndsWith(DefaultEula(basedir, sep), EulaName)
    ensures Within(DefaultEula(basedir, sep), basedir, sep)
    ensures DefaultEula(basedir, sep) != JetResource(basedir, sep, IconName)
  {
    var e := DefaultEula(basedir, sep);
    var r := JetResource(basedir, sep, IconName);
    assert e[|e| - |EulaName|..] == EulaName;
    assert |r| == |e| ==> r[|r| - 8] == 'i' && e[|e| - 8] == 'e';
  }

  /** eulaFlag's decision from the declared and the detected encoding: a
      declared encoding must match the file; the effective encoding is
      the detected one under `autodetect` and the declared one otherwise;
      UTF-16LE and US-ASCII select the two flags, anything else fails. */
  function EulaFlag(declared: string, detected: Result<string, MojoException>): (r: Result<string, MojoException>)
    ensures r.Success? ==> r.value == UnicodeEulaFlag || r.value == EulaFlagText
    ensures detected.Failure? ==> r == Failure(detected.error)
    ensures detected.Success? && declared != AutoDetectEulaEncoding && detected.value != declared ==>
      r == Failure(MojoFailureException(EncodingDoesNotMatchActualKey, [detected.value, declared]))
    ensures detected.Success? && (declared == AutoDetectEulaEncoding || detected.value == declared) ==>
      (r == Success(UnicodeEulaFlag) <==> detected.value == "UTF-16LE") &&
      (r == Success(EulaFlagText) <==> detected.value == "US-ASCII")
    ensures r.Failure? && detected.Success? && (declared == AutoDetectEulaEncoding || detected.value == declared) ==>
      r.error == MojoFailureException(UnsupportedEncodingKey, [declared])
  {
    if detected.Failure? then Failure(detected.error)
    else if declared != AutoDetectEulaEncoding && detected.value != declared then
      Failure(MojoFailureException(EncodingDoesNotMatchActualKey, [detected.value, declared]))
    else
      var actual := if declared == AutoDetectEulaEncoding then detected.value else declared;
      if actual == "UTF-16LE" then Success(UnicodeEulaFlag)
      else if actual == "US-ASCII" then Success(EulaFlagText)
      else Failure(MojoFailureException(UnsupportedEncodingKey, [declared]))
  }

  class ExcelsiorInstallerConfig {
    var eula: Option<Path>
    var eulaEncoding: string
    var installerSplash: Option<Path>

    constructor ()
      ensures eula == None && eulaEncoding == AutoDetectEulaEncoding && installerSplash == None
    {
      eula := None;
      eulaEncoding := AutoDetectEulaEncoding;
      installerSplash := None;
    }

    /** fillDefaults: rejects an unknown encoding, then fills in the
        conventional licence and splash files where none is set. The
        licence default is `eula.txt` (see DefaultEulaAsWritten for the
        icon file the code names). */
    method FillDefaults(basedir: Path, sep: char) returns (r: Outcome<MojoException>)
      modifies this
      ensures eulaEncoding == old(eulaEncoding)
      ensures r.Fail? <==> old(eulaEncoding) !in ValidEulaEncodings
      ensures r.Fail? ==>
        (r == Fail(MojoFailureException(UnsupportedEncodingKey, [eulaEncoding]))
         && eula == old(eula) && installerSplash == old(installerSplash))
      ensures r.Pass? ==> eula == Some(old(eula).GetOr(DefaultEula(basedir, sep)))
      ensures r.Pass? ==> installerSplash == Some(old(installerSplash).GetOr(JetResource(basedir, sep, SplashName)))
    {
      if eulaEncoding !in ValidEulaEncodings {
        return Fail(MojoFailureException(UnsupportedEncodingKey, [eulaEncoding]));
      }
      if eula.None? {
        eula := Some(DefaultEula(basedir, sep));
      }
      if installerSplash.None? {
        installerSplash := Some(JetResource(basedir, sep, SplashName));
      }
      return Pass;
    }

    /** eulaFlag on the configured licence file (set by fillDefaults). */
    function EulaFlagOf(t: Tree, denied: set<Path>): (r: Result<string, MojoException>)
      reads this
      requires eula.Some?
      ensures r == EulaFlag(eulaEncoding, EncodingDetector.DetectFileEncoding(t, denied, eula.value))
      ensures r.Success? ==> IsFile(t, eula.value) && eula.value !in denied
    {
      EulaFlag(eulaEncoding, EncodingDetector.DetectFileEncoding(t, denied, eula.value))
    }
  }

  // ---------------------------------------------------------------------
  // Properties

  /** Under `autodetect` a licence in UTF-16LE with its mark gets the
      Unicode flag, one without any mark the plain flag, and one with
      any other mark is refused. */
  lemma AutodetectFlags(data: seq<bv8>)
    ensures EncodingDetector.DetectEncoding(data) == EncodingDetector.UTF_16LE ==>
      EulaFlag(AutoDetectEulaEncoding, Success(EncodingDetector.Name(EncodingDetector.DetectEncoding(data)))) == Success(UnicodeEulaFlag)
    ensures EncodingDetector.DetectEncoding(data) == EncodingDetector.US_ASCII ==>
      EulaFlag(AutoDetectEulaEncoding, Success(EncodingDetector.Name(EncodingDetector.DetectEncoding(data)))) == Success(EulaFlagText)
    ensures EncodingDetector.DetectEncoding(data) !in {EncodingDetector.UTF_16LE, EncodingDetector.US_ASCII} ==>
      EulaFlag(AutoDetectEulaEncoding, Success(EncodingDetector.Name(EncodingDetector.DetectEncoding(data))))
        == Failure(MojoFailureException(UnsupportedEncodingKey, [AutoDetectEulaEncoding]))
  {
    var c := EncodingDetector.DetectEncoding(data);
    assert EncodingDetector.Name(c) == "UTF-16LE" <==> c == EncodingDetector.UTF_16LE;
    assert EncodingDetector.Name(c) == "US-ASCII" <==> c == EncodingDetector.US_ASCII;
  }

  /** Declaring the encoding the file really has gives the same flag as
      `autodetect`; every valid declaration that disagrees with the file
      fails. */
  lemma DeclaredMatchesAutodetect(declared: string, detected: string)
    requires declared in ValidEulaEncodings
    ensures declared == detected ==>
      EulaFlag(declared, Success(detected)).Success? ==> EulaFlag(declared, Success(detected)) == EulaFlag(AutoDetectEulaEncoding, Success(detected))
    ensures declared != AutoDetectEulaEncoding && declared != detected ==> EulaFlag(declared, Success(detected)).Failure?
  {
  }
}
