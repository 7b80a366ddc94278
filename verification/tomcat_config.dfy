/** TomcatConfig: where the Tomcat installation to compile with is, and
    under which name the web application is deployed into it. */
module TomcatConfig {
  import opened Wrappers
  import opened JavaLang
  import opened Files
  import opened Mojo
  import opened Host
  import Utils

  const WebappsDir: string := "webapps"
  const WarSuffix: string := ".war"

  const TomcatNotSpecifiedKey: string := "JetMojo.TomcatNotSpecified.Failure"
  const TomcatDoesNotExistKey: string := "JetMojo.TomcatDoesNotExist.Failure"
  const TomcatWebappsDoesNotExistKey: string := "JetMojo.TomcatWebappsDoesNotExist.Failure"

  /** The value fillDefaults leaves in `tomcatHome`: the explicit value,
      else the `tomcat.home` property, else `TOMCAT_HOME`, else
      `CATALINA_HOME`, each taken only when the ones before are empty. */
  function TomcatHomeChoice(h: Host, explicit: Option<string>): (r: Option<string>)
    ensures !Utils.IsEmpty(explicit) ==> r == explicit
    ensures Utils.IsEmpty(explicit) && !Utils.IsEmpty(h.Property("tomcat.home")) ==> r == h.Property("tomcat.home")
    ensures Utils.IsEmpty(explicit) && Utils.IsEmpty(h.Property("tomcat.home")) && !Utils.IsEmpty(h.Getenv("TOMCAT_HOME")) ==>
      r == h.Getenv("TOMCAT_HOME")
    ensures Utils.IsEmpty(explicit) && Utils.IsEmpty(h.Property("tomcat.home")) && Utils.IsEmpty(h.Getenv("TOMCAT_HOME")) ==>
      r == h.Getenv("CATALINA_HOME")
  {
    if !Utils.IsEmpty(explicit) then explicit
    else if !Utils.IsEmpty(h.Property("tomcat.home")) then h.Property("tomcat.home")
    else if !Utils.IsEmpty(h.Getenv("TOMCAT_HOME")) then h.Getenv("TOMCAT_HOME")
    else h.Getenv("CATALINA_HOME")
  }

  /** The deploy name after fillDefaults: a non-empty name gets `.war`
      appended unless it already ends with it. */
  function WarName(name: Option<string>): (r: Option<string>)
    ensures Utils.IsEmpty(name) ==> r == name
    ensures !Utils.IsEmpty(name) ==> r.Some? && EndsWith(r.value, WarSuffix) && StartsWith(r.value, name.value)
    ensures !Utils.IsEmpty(name) && EndsWith(name.value, WarSuffix) ==> r == name
  {
    if !Utils.IsEmpty(name) && !EndsWith(name.value, WarSuffix) then
      var s := name.value + WarSuffix;
      assert s[..|name.value|] == name.value;
      assert s[|s| - |WarSuffix|..] == WarSuffix;
      Some(s)
    else name
  }

  /** The checks of fillDefaults on the chosen home, in order. */
  function CheckTomcatHome(h: Host, home: Option<string>): (r: Outcome<MojoException>)
    ensures r.Pass? <==> !Utils.IsEmpty(home) && h.Exists(home.value) && h.Exists(Child(home.value, h.sep, WebappsDir))
  {
    if Utils.IsEmpty(home) then Fail(MojoFailureException(TomcatNotSpecifiedKey, []))
    else if !h.Exists(home.value) then Fail(MojoFailureException(TomcatDoesNotExistKey, [home.value]))
    else if !h.Exists(Child(home.value, h.sep, WebappsDir)) then
      Fail(MojoFailureException(TomcatWebappsDoesNotExistKey, [home.value]))
    else Pass
  }

  class TomcatConfig {
    var tomcatHome: Option<string>
    var warDeployName: Option<string>
    var hideConfig: bool
    var genScripts: bool

    constructor ()
      ensures tomcatHome == None && warDeployName == None
      ensures !hideConfig && genScripts
    {
      tomcatHome := None;
      warDeployName := None;
      hideConfig := false;
      genScripts := true;
    }

    /** fillDefaults: resolves `tomcatHome` through its fallbacks, checks
        it, and then normalises `warDeployName`. */
    method FillDefaults(h: Host) returns (r: Outcome<MojoException>)
      modifies this
      ensures tomcatHome == TomcatHomeChoice(h, old(tomcatHome))
      ensures r == CheckTomcatHome(h, tomcatHome)
      ensures warDeployName == if r.Pass? then WarName(old(warDeployName)) else old(warDeployName)
      ensures hideConfig == old(hideConfig) && genScripts == old(genScripts)
    {
      if Utils.IsEmpty(tomcatHome) {
        tomcatHome := h.Property("tomcat.home");
        if Utils.IsEmpty(tomcatHome) {
          tomcatHome := h.Getenv("TOMCAT_HOME");
          if Utils.IsEmpty(tomcatHome) {
            tomcatHome := h.Getenv("CATALINA_HOME");
          }
        }
      }
      if Utils.IsEmpty(tomcatHome) {
        return Fail(MojoFailureException(TomcatNotSpecifiedKey, []));
      }
      if !h.Exists(tomcatHome.value) {
        return Fail(MojoFailureException(TomcatDoesNotExistKey, [tomcatHome.value]));
      }
      if !h.Exists(Child(tomcatHome.value, h.sep, WebappsDir)) {
        return Fail(MojoFailureException(TomcatWebappsDoesNotExistKey, [tomcatHome.value]));
      }
      if !Utils.IsEmpty(warDeployName) && !EndsWith(warDeployName.value, WarSuffix) {
        warDeployName := Some(warDeployName.value + WarSuffix);
      }
      return Pass;
    }
  }

  // ---------------------------------------------------------------------
  // Properties

  /** Resolving the home again from its own result changes nothing. */
  lemma TomcatHomeChoiceIdempotent(h: Host, explicit: Option<string>)
    ensures TomcatHomeChoice(h, TomcatHomeChoice(h, explicit)) == TomcatHomeChoice(h, explicit)
  {
  }

  /** Appending `.war` is idempotent: a second fillDefaults leaves the
      deploy name as the first one left it. */
  lemma WarNameIdempotent(name: Option<string>)
    ensures WarName(WarName(name)) == WarName(name)
  {
  }

  /** When every source is empty, fillDefaults fails with "not specified",
      whatever the filesystem holds. */
  lemma NoSourceFails(h: Host, explicit: Option<string>)
    requires Utils.IsEmpty(explicit) && Utils.IsEmpty(h.Property("tomcat.home"))
    requires Utils.IsEmpty(h.Getenv("TOMCAT_HOME")) && Utils.IsEmpty(h.Getenv("CATALINA_HOME"))
    ensures CheckTomcatHome(h, TomcatHomeChoice(h, explicit)) == Fail(MojoFailureException(TomcatNotSpecifiedKey, []))
  {
  }
}
