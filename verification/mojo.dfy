/** The exceptions through which a Maven goal reports failure, each
    carrying the key of its message and the message's arguments, and the
    unchecked exceptions that escape a goal. */
module Mojo {
  import opened JavaLang

  datatype MojoException =
    | MojoFailureException(key: string, args: seq<string>)
    | MojoExecutionException(key: string, args: seq<string>)
    /** A runtime exception no handler catches, by class name. */
    | Unchecked(name: string)

  const NullPointerException: string := "NullPointerException"
  const IndexOutOfBoundsException: string := "IndexOutOfBoundsException"

  /** The text a goal logs for a message: its key and then its arguments,
      space-separated. The wording the resource bundle gives each key is
      not part of this model. */
  function MessageText(key: string, args: seq<string>): string {
    Join([key] + args, ' ')
  }
}
