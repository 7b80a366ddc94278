/** XJava: the launcher that runs an application on the JET runtime; for
    a Test Run it is told where to record the execution profiles. */
module XJava {
  import opened Host
  import opened TestRunProfiles

  const XJavaName: string := "xjava"
  const StartupProfileOption: string := "-Djet.jit.profile.startup="
  const UsageListOption: string := "-Djet.usage.list="

  /** The arguments addTestRunArgs appends: the startup profile always,
      the usage list only on a 32-bit toolchain. */
  function TestRunArgs(h: Host, profiles: TestRunExecProfiles, is64bit: bool): (r: seq<string>)
    ensures |r| == if is64bit then 1 else 2
    ensures r[0] == StartupProfileOption + h.AbsolutePath(profiles.startup)
    ensures !is64bit ==> r[1] == UsageListOption + h.AbsolutePath(profiles.usg)
  {
    [StartupProfileOption + h.AbsolutePath(profiles.startup)]
    + (if is64bit then [] else [UsageListOption + h.AbsolutePath(profiles.usg)])
  }

  class XJava {
    var args: seq<string>

    /** The tool's command line starts with the `xjava` executable, which
        the enclosing JetTool locates. */
    constructor (executable: string, args: seq<string>)
      ensures this.args == [executable] + args
    {
      this.args := [executable] + args;
    }

    /** arg: appends one argument. */
    method Arg(a: string) returns (self: XJava)
      modifies this
      ensures self == this && args == old(args) + [a]
    {
      args := args + [a];
      return this;
    }

    /** addArgs: appends the arguments, in order. */
    method AddArgs(more: seq<string>) returns (self: XJava)
      modifies this
      ensures self == this && args == old(args) + more
    {
      args := args + more;
      return this;
    }

    /** addTestRunArgs: the arguments already given stay first and in
        order; the toolchain's bitness is an input. */
    method AddTestRunArgs(h: Host, profiles: TestRunExecProfiles, is64bit: bool) returns (self: XJava)
      modifies this
      ensures self == this
      ensures args == old(args) + TestRunArgs(h, profiles, is64bit)
    {
      var _ := Arg(StartupProfileOption + h.AbsolutePath(profiles.startup));
      if !is64bit {
        var _ := Arg(UsageListOption + h.AbsolutePath(profiles.usg));
      }
      return this;
    }
  }
}
