/** SlimDownConfig: the Java Runtime Slim-Down settings, which detach
    unused runtime components into a separately downloaded package. */
module SlimDown {
  import opened Wrappers

  datatype SlimDownConfig = SlimDownConfig(
    detachComponents: Option<seq<string>>,
    detachedBaseURL: Option<string>,
    detachedPackage: Option<string>)
  {
    /** isEnabled: components to detach, a base URL or a package name. */
    predicate IsEnabled() {
      (detachComponents.Some? && |detachComponents.value| > 0) || detachedBaseURL.Some? || detachedPackage.Some?
    }
  }

  const Default: SlimDownConfig := SlimDownConfig(None, None, None)

  /** Slim-down is off by default; an empty component list alone does not
      turn it on; a package name alone does, without the base URL the
      parameter's documentation calls mandatory. */
  lemma Enabling(components: seq<string>, name: string, url: string)
    ensures !Default.IsEnabled()
    ensures Default.(detachComponents := Some([])).IsEnabled() == false
    ensures Default.(detachedPackage := Some(name)).IsEnabled()
    ensures Default.(detachedBaseURL := Some(url)).IsEnabled()
    ensures Default.(detachComponents := Some(components)).IsEnabled() <==> |components| > 0
  {
  }
}
