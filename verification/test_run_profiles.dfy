/** TestRunExecProfiles: the two profile files a Test Run leaves behind,
    the usage list and the startup profile. */
module TestRunProfiles {
  import opened JavaLang
  import opened Files

  const UsgSuffix: string := ".usg"
  const StartupSuffix: string := ".startup"

  datatype TestRunExecProfiles = TestRunExecProfiles(usg: Path, startup: Path)

  /** The constructor: both files in `outputDir`, named after the
      executable with their own suffix. */
  function NewTestRunExecProfiles(outputDir: Path, sep: char, outputName: string): (r: TestRunExecProfiles)
    ensures r.usg == Child(outputDir, sep, outputName + UsgSuffix)
    ensures r.startup == Child(outputDir, sep, outputName + StartupSuffix)
  {
    TestRunExecProfiles(Child(outputDir, sep, outputName + UsgSuffix), Child(outputDir, sep, outputName + StartupSuffix))
  }

  /** Both profiles lie in the output directory under the same stem and
      differ only in their suffix, so they are never the same file. */
  lemma ProfilesDistinct(outputDir: Path, sep: char, outputName: string)
    ensures var p := NewTestRunExecProfiles(outputDir, sep, outputName);
      Within(p.usg, outputDir, sep) && Within(p.startup, outputDir, sep) &&
      EndsWith(p.usg, UsgSuffix) && EndsWith(p.startup, StartupSuffix) && p.usg != p.startup
  {
    var p := NewTestRunExecProfiles(outputDir, sep, outputName);
    var n := |outputDir| + 1 + |outputName|;
    assert p.usg[n..] == UsgSuffix;
    assert p.startup[n..] == StartupSuffix;
  }
}
