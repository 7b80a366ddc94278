/** JetTool (com.excelsior.jet.JetTool, the older package): a command-line
    tool from the JET `bin` directory, started with that directory first
    on its `PATH`. */
module LegacyJetTool {
  import opened Wrappers
  import opened JavaLang
  import opened Files
  import Utils

  /** getNewArgs: the tool's executable, then the given arguments. */
  function GetNewArgs(osName: string, binDir: Path, sep: char, exeName: string, args: seq<string>): (r: seq<string>)
    ensures |r| == |args| + 1
    ensures r[0] == Utils.MangleExeName(osName, binDir + [sep] + exeName)
    ensures r[1..] == args
  {
    [Utils.MangleExeName(osName, binDir + [sep] + exeName)] + args
  }

  /** The `PATH` the tool is started with: the bin directory, the path
      separator and the inherited value, which string concatenation
      renders as "null" when `PATH` is unset. */
  function ToolPath(binDir: Path, pathSep: char, inherited: Option<string>): (r: string)
    ensures StartsWith(r, binDir + [pathSep])
    ensures inherited.Some? ==> r == binDir + [pathSep] + inherited.value
  {
    var r := binDir + [pathSep] + inherited.GetOr("null");
    assert r[..|binDir| + 1] == binDir + [pathSep];
    r
  }

  class JetTool {
    var args: seq<string>
    var environment: seq<string>

    /** The constructor: the new argument vector, and one `PATH=...`
        environment entry. */
    constructor (osName: string, binDir: Path, sep: char, pathSep: char, inheritedPath: Option<string>,
                 exeName: string, args: seq<string>)
      ensures this.args == GetNewArgs(osName, binDir, sep, exeName, args)
      ensures environment == ["PATH=" + ToolPath(binDir, pathSep, inheritedPath)]
    {
      this.args := GetNewArgs(osName, binDir, sep, exeName, args);
      environment := ["PATH=" + ToolPath(binDir, pathSep, inheritedPath)];
    }
  }

  /** The first entry the tool finds on its `PATH` is the JET bin
      directory, as long as that directory's name is not empty and holds
      no path separator. */
  lemma BinDirIsFirstPathEntry(binDir: Path, pathSep: char, inherited: Option<string>)
    requires |binDir| > 0 && pathSep !in binDir
    ensures var entries := Split(ToolPath(binDir, pathSep, inherited), pathSep);
      |entries| > 0 && entries[0] == binDir
  {
    var rest := inherited.GetOr("null");
    var s := binDir + [pathSep] + rest;
    assert s[|binDir|] == pathSep;
    SplitAllFirstPiece(binDir, rest, pathSep);
    var parts := SplitAll(s, pathSep);
    var kept := DropTrailingEmpty(parts);
    assert parts[0] == binDir;
  }
}
