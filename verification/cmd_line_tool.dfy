/** CmdLineTool (com.excelsiorjet.CmdLineTool): a builder for a child
    process whose standard output and error lines are passed to a Maven
    log, and whose environment is the inherited one with the tool's own
    overrides applied. The process itself, and the two threads reading its
    streams, are replaced by what they deliver: an exit code and the lines
    in the order the log received them. */
module CmdLineTool {
  import opened Wrappers
  import opened JavaLang
  import opened Files
  import opened Logging
  import Utils

  /** One line read from the child, from standard output or standard
      error. */
  datatype Line = Out(text: string) | Err(text: string)

  /** What running the child delivers: its exit code and output, or the
      IOException / InterruptedException that stopped the run. */
  datatype ProcessRun = Exited(exitCode: int, output: seq<Line>) | Failed(message: string)

  datatype CmdLineToolException = CmdLineToolException(message: string)

  type Env = map<string, string>

  /** The key withEnvironment stores: upper-cased on Windows. */
  function EnvKey(osName: string, name: string): (r: string)
    ensures Utils.IsWindows(osName) ==> r == ToUpper(name) && ToUpper(r) == r
    ensures !Utils.IsWindows(osName) ==> r == name
  {
    if Utils.IsWindows(osName) then ToUpper(name) else name
  }

  /** Windows keeps one variable per name, ignoring case. */
  predicate CaseInsensitivelyUnique(inherited: Env) {
    forall a, b :: a in inherited && b in inherited && ToUpper(a) == ToUpper(b) ==> a == b
  }

  /** Every key is already upper case (the tool's own overrides on
      Windows). */
  predicate UpperKeys(env: Env) {
    forall k :: k in env ==> ToUpper(k) == k
  }

  /** The inherited names, upper-cased. */
  function InheritedUpper(inherited: Env): set<string> {
    set k | k in inherited :: ToUpper(k)
  }

  /** The environment the child starts with. On Windows an override whose
      name matches an inherited variable ignoring case replaces its value
      under the inherited spelling; every other override is added; the
      rest is inherited unchanged. Elsewhere the overrides are put over
      the inherited environment. */
  function ChildEnv(osName: string, inherited: Env, env: Env): Env {
    if Utils.IsWindows(osName) then WindowsOverlay(inherited, env) + (env - InheritedUpper(inherited))
    else inherited + env
  }

  /** The inherited variables with the overrides that match them. */
  function WindowsOverlay(inherited: Env, env: Env): (r: Env)
    ensures r.Keys == inherited.Keys
  {
    map k | k in inherited :: if ToUpper(k) in env then env[ToUpper(k)] else inherited[k]
  }

  /** The tool's overrides after `execute`: on Windows those that matched
      an inherited variable have been removed. */
  function RemainingEnv(osName: string, inherited: Env, env: Env): (r: Env)
    ensures Utils.IsWindows(osName) ==> r == env - InheritedUpper(inherited)
    ensures !Utils.IsWindows(osName) ==> r == env
  {
    if Utils.IsWindows(osName) then env - InheritedUpper(inherited) else env
  }

  /** What the log receives from the child's output: info for standard
      output, error for standard error, in delivery order. */
  function Logged(output: seq<Line>): (r: seq<Entry>)
    ensures |r| == |output|
    ensures forall i :: 0 <= i < |output| ==>
      r[i] == (if output[i].Out? then Entry(Level.Info, output[i].text) else Entry(Level.Error, output[i].text))
  {
    seq(|output|, i requires 0 <= i < |output| =>
      if output[i].Out? then Entry(Level.Info, output[i].text) else Entry(Level.Error, output[i].text))
  }

  class CmdLineTool {
    const osName: string
    var args: seq<string>
    var log: Log?
    var workDir: Option<Path>
    var env: Env

    /** On Windows the overrides are kept under upper-case names. */
    predicate Valid()
      reads this
    {
      Utils.IsWindows(osName) ==> UpperKeys(env)
    }

    constructor (osName: string, args: seq<string>)
      ensures Valid()
      ensures this.osName == osName && this.args == args
      ensures log == null && workDir == None && env == map[]
    {
      this.osName := osName;
      this.args := args;
      log := null;
      workDir := None;
      env := map[];
    }

    method WithLog(log: Log?) returns (self: CmdLineTool)
      modifies this
      ensures self == this && this.log == log
      ensures args == old(args) && workDir == old(workDir) && env == old(env)
    {
      this.log := log;
      return this;
    }

    method WorkingDirectory(dir: Path) returns (self: CmdLineTool)
      modifies this
      ensures self == this && workDir == Some(dir)
      ensures args == old(args) && log == old(log) && env == old(env)
    {
      workDir := Some(dir);
      return this;
    }

    /** withEnvironment: records an override, replacing an earlier one for
        the same name. */
    method WithEnvironment(name: string, value: string) returns (self: CmdLineTool)
      requires Valid()
      modifies this
      ensures Valid()
      ensures self == this && env == old(env)[EnvKey(osName, name) := value]
      ensures args == old(args) && log == old(log) && workDir == old(workDir)
    {
      env := env[EnvKey(osName, name) := value];
      return this;
    }

    /** execute: starts the child with the merged environment and returns
        its exit code, whatever it is; every output line goes to the log,
        if there is one. A failed run raises CmdLineToolException. */
    method Execute(inherited: Env, run: ProcessRun) returns (r: Result<int, CmdLineToolException>, penv: Env)
      requires Valid()
      requires Utils.IsWindows(osName) ==> CaseInsensitivelyUnique(inherited)
      modifies this, log
      ensures Valid()
      ensures penv == ChildEnv(osName, inherited, old(env))
      ensures env == RemainingEnv(osName, inherited, old(env))
      ensures args == old(args) && log == old(log) && workDir == old(workDir)
      ensures run.Failed? ==> r == Failure(CmdLineToolException(run.message))
      ensures run.Exited? ==> r == Success(run.exitCode)
      ensures log != null && run.Exited? ==> log.entries == old(log.entries) + Logged(run.output)
      ensures log != null && run.Failed? ==> log.entries == old(log.entries)
    {
      penv := inherited;
      if env == map[] {
        NoOverrides(osName, inherited);
      } else {
        if Utils.IsWindows(osName) {
          penv := MergeWindows(inherited);
        }
        penv := penv + env;
      }
      if run.Failed? {
        return Failure(CmdLineToolException(run.message)), penv;
      }
      if log != null {
        LogOutput(log, run.output);
      }
      return Success(run.exitCode), penv;
    }

    /** The Windows branch of `execute`: the overrides that match an
        inherited variable are applied to it and removed from the tool. */
    method MergeWindows(inherited: Env) returns (penv: Env)
      requires Valid() && Utils.IsWindows(osName)
      requires CaseInsensitivelyUnique(inherited)
      modifies this
      ensures Valid()
      ensures env == old(env) - InheritedUpper(inherited)
      ensures penv == WindowsOverlay(inherited, old(env))
      ensures args == old(args) && log == old(log) && workDir == old(workDir)
    {
      penv, env := OverlayInherited(inherited, env);
    }
  }

  /** The loop of `execute` over the inherited names on Windows: each one
      whose upper-case form has an override takes the override's value,
      and the override is consumed. */
  method OverlayInherited(inherited: Env, env0: Env) returns (penv: Env, env: Env)
    requires CaseInsensitivelyUnique(inherited)
    ensures env == env0 - InheritedUpper(inherited)
    ensures penv == WindowsOverlay(inherited, env0)
  {
    penv := inherited;
    env := env0;
    var keys := inherited.Keys;
    ghost var removed: set<string> := {};
    while keys != {}
      invariant Consumed(inherited, env0, keys, removed, env)
      invariant Overlaid(inherited, env0, keys, penv)
      decreases keys
    {
      var key :| key in keys;
      var keyUpper := ToUpper(key);
      ConsumedStep(inherited, env0, keys, removed, env, key);
      OverlaidStep(inherited, env0, keys, removed, env, penv, key);
      if keyUpper in env {
        penv := penv[key := env[keyUpper]];
        env := env - {keyUpper};
      }
      keys := keys - {key};
      removed := removed + {keyUpper};
    }
    OverlayDone(inherited, env0, removed, env, penv);
  }

  lemma OverlayDone(inherited: Env, env0: Env, removed: set<string>, env: Env, penv: Env)
    requires Consumed(inherited, env0, {}, removed, env)
    requires Overlaid(inherited, env0, {}, penv)
    ensures env == env0 - InheritedUpper(inherited)
    ensures penv == WindowsOverlay(inherited, env0)
  {
    assert removed == InheritedUpper(inherited);
  }

  /** Loop state of OverlayInherited, the overrides: those of the names
      already visited (`removed`) are gone, those of the names still to
      visit are all there. */
  ghost predicate Consumed(inherited: Env, env0: Env, keys: set<string>, removed: set<string>, env: Env) {
    && keys <= inherited.Keys
    && env == env0 - removed
    && (forall k :: k in inherited && k !in keys ==> ToUpper(k) in removed)
    && (forall u :: u in removed ==> u in InheritedUpper(inherited))
    && (forall k :: k in keys ==> ToUpper(k) !in removed)
  }

  /** Loop state of OverlayInherited, the child's environment: the names
      already visited carry their final value. */
  ghost predicate Overlaid(inherited: Env, env0: Env, keys: set<string>, penv: Env) {
    && penv.Keys == inherited.Keys
    && forall k :: k in inherited ==>
         penv[k] == (if k in keys then inherited[k] else WindowsOverlay(inherited, env0)[k])
  }

  lemma ConsumedStep(inherited: Env, env0: Env, keys: set<string>, removed: set<string>, env: Env, key: string)
    requires CaseInsensitivelyUnique(inherited)
    requires Consumed(inherited, env0, keys, removed, env) && key in keys
    ensures ToUpper(key) in env <==> ToUpper(key) in env0
    ensures Consumed(inherited, env0, keys - {key}, removed + {ToUpper(key)},
      if ToUpper(key) in env then env - {ToUpper(key)} else env)
  {
    var u := ToUpper(key);
    assert (if u in env then env - {u} else env) == env0 - (removed + {u});
  }

  lemma OverlaidStep(inherited: Env, env0: Env, keys: set<string>, removed: set<string>, env: Env, penv: Env, key: string)
    requires Consumed(inherited, env0, keys, removed, env) && key in keys
    requires ToUpper(key) in env <==> ToUpper(key) in env0
    requires Overlaid(inherited, env0, keys, penv)
    ensures Overlaid(inherited, env0, keys - {key},
      if ToUpper(key) in env then penv[key := env[ToUpper(key)]] else penv)
  {
  }

  /** The two reader threads, as the lines they deliver. */
  method LogOutput(log: Log, output: seq<Line>)
    modifies log
    ensures log.entries == old(log.entries) + Logged(output)
  {
    var i := 0;
    while i < |output|
      invariant 0 <= i <= |output|
      invariant log.entries == old(log.entries) + Logged(output[..i])
    {
      if output[i].Out? {
        log.Info(output[i].text);
      } else {
        log.Error(output[i].text);
      }
      assert Logged(output[..i + 1]) == Logged(output[..i]) + [Logged(output)[i]];
      i := i + 1;
    }
    assert output[..i] == output;
  }

  // ---------------------------------------------------------------------
  // Properties of the merge

  /** Without overrides the child inherits the environment as it is. */
  lemma NoOverrides(osName: string, inherited: Env)
    ensures ChildEnv(osName, inherited, map[]) == inherited
  {
    if Utils.IsWindows(osName) {
      assert WindowsOverlay(inherited, map[]) == inherited;
    }
  }

  /** The Windows merge variable by variable: an inherited variable keeps
      its spelling and takes the override of the same name ignoring case,
      if any; a name no inherited variable matches is added with its
      override; nothing else appears. */
  lemma WindowsChildEnv(osName: string, inherited: Env, env: Env)
    requires Utils.IsWindows(osName) && UpperKeys(env)
    ensures forall k :: k in ChildEnv(osName, inherited, env) <==>
      k in inherited || (k in env && k !in InheritedUpper(inherited))
    ensures forall k :: k in inherited ==>
      ChildEnv(osName, inherited, env)[k] == (if ToUpper(k) in env then env[ToUpper(k)] else inherited[k])
    ensures forall k :: k in ChildEnv(osName, inherited, env) && k !in inherited ==>
      ChildEnv(osName, inherited, env)[k] == env[k]
  {
    forall k | k in inherited && k in env
      ensures k in InheritedUpper(inherited)
    {
      assert ToUpper(k) == k;
    }
  }

  /** On Windows an override for `PATH` given as `Path` by the system is
      written under the system's spelling, and no second entry for it
      appears. */
  lemma WindowsOverrideKeepsSpelling(osName: string, inherited: Env, env: Env, k: string)
    requires Utils.IsWindows(osName) && UpperKeys(env) && CaseInsensitivelyUnique(inherited)
    requires k in inherited && ToUpper(k) in env
    ensures ChildEnv(osName, inherited, env)[k] == env[ToUpper(k)]
    ensures forall k' :: k' in ChildEnv(osName, inherited, env) && ToUpper(k') == ToUpper(k) ==> k' == k
  {
    WindowsChildEnv(osName, inherited, env);
  }

  /** A second `execute` of the same tool no longer applies the overrides
      that matched on Windows: the child then sees every inherited
      variable with its inherited value. */
  lemma SecondExecuteInherits(osName: string, inherited: Env, env: Env)
    requires Utils.IsWindows(osName) && UpperKeys(env)
    ensures forall k :: k in inherited ==>
      ChildEnv(osName, inherited, RemainingEnv(osName, inherited, env))[k] == inherited[k]
  {
    var rest := RemainingEnv(osName, inherited, env);
    WindowsChildEnv(osName, inherited, rest);
    forall k | k in inherited
      ensures ChildEnv(osName, inherited, rest)[k] == inherited[k]
    {
      assert ToUpper(k) in InheritedUpper(inherited);
    }
  }

  /** Elsewhere overrides are never consumed, so every execute applies
      them again, and they win over the inherited values. */
  lemma OverridesKeptOutsideWindows(osName: string, inherited: Env, env: Env)
    requires !Utils.IsWindows(osName)
    ensures RemainingEnv(osName, inherited, env) == env
    ensures forall k :: k in env ==> ChildEnv(osName, inherited, env)[k] == env[k]
    ensures forall k :: k in inherited && k !in env ==> ChildEnv(osName, inherited, env)[k] == inherited[k]
  {
  }
}
