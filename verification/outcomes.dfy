/** Result types shared by the model of the server's startup options. */
module Outcomes {

  /** An optional value; `None` plays the part of a NULL pointer. */
  datatype Option<+T> = None | Some(value: T) {

    /** The wrapped value, or `default` when there is none. */
    function GetOr(default: T): T {
      match this
      case Some(v) => v
      case None => default
    }
  }

  /** The conditions on which startup ends the process with an error message. */
  datatype Fatal =
    | DuplicateKey(name: string)
    | NoHostKeys
    | BadPortArgument
    | BadPort

  /** The message the process exits with for each fatal condition. */
  function Message(f: Fatal): string {
    match f
    case DuplicateKey(name) => "Only one " + name + " key can be specified"
    case NoHostKeys => "No hostkeys available. Specify any with -r <keyfile> options."
    case BadPortArgument => "Bad -p argument"
    case BadPort => "Bad port"
  }

  /** How a startup step ends: with a value, with a fatal exit, or never
      (a run that keeps regenerating a key file it cannot read). */
  datatype Outcome<+T> = Done(value: T) | Abort(reason: Fatal) | Stalled
}
